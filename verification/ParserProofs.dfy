/** The parser as the inverse of the generators: exactly when it recovers the generated action. */
module ParserProofs {
  import opened Abi
  import opened Arithmetic
  import opened Bytes
  import opened Parser
  import opened Payload
  import opened Primitives
  import opened Tickets
  import opened Wrappers

  /** The transaction a request is sent as. */
  function Sent(req: TransactionRequest): (tx: Transaction)
  {
    Transaction(req.to, FromBE(req.value), req.input)
  }

  // ----- selectors

  predicate StartsWith(input: seq<byte>, b: byte) {
    input != [] && input[0] == b
  }

  lemma WrongSelector(sel: selector, input: seq<byte>, n: nat)
    requires input == [] || input[0] != sel[0]
    ensures Call(sel, input, n) == None && Args(sel, input) == None
  {
    if |input| >= 4 {
      assert input[..4][0] != sel[0];
    }
  }

  lemma StaticCallSlots(sel: selector, words: seq<word>)
    ensures Call(sel, StaticCall(sel, words), |words|) == Some(Concat(words))
    ensures forall i :: 0 <= i < |words| ==> Slot(Concat(words), i) == words[i]
    ensures StartsWith(StaticCall(sel, words), sel[0])
  {
    StaticCallArgs(sel, words);
  }

  lemma AmountSlot(amount: u256)
    ensures UintOf(Amount(amount), 32) == amount
  {
    Widths();
    FromToBE(amount, 32);
    assert Amount(amount)[0..] == Amount(amount);
  }

  // ----- each call is read back by the contract it is meant for

  lemma RegisterParsed(safe: address)
    ensures ParseRegistry(StaticCall(REGISTER_SAFE_BY_NODE, [Addr32(safe)])) == Ok(RegisterSafeAddress(safe))
  {
    StaticCallSlots(REGISTER_SAFE_BY_NODE, [Addr32(safe)]);
    AddressRoundTrip(safe);
  }

  lemma ApproveParsed(addrs: ContractAddresses, spender: address, amount: u256, payer: Payer)
    ensures ParseToken(addrs, StaticCall(APPROVE, [Addr32(spender), Amount(amount)]), payer)
            == Ok(ApproveSpender(spender, amount, payer))
  {
    var input := StaticCall(APPROVE, [Addr32(spender), Amount(amount)]);
    StaticCallSlots(APPROVE, [Addr32(spender), Amount(amount)]);
    WrongSelector(SEND, input, 3);
    AddressRoundTrip(spender);
    AmountSlot(amount);
  }

  lemma TransferParsed(addrs: ContractAddresses, recipient: address, amount: u256, payer: Payer)
    ensures ParseToken(addrs, StaticCall(TRANSFER, [Addr32(recipient), Amount(amount)]), payer)
            == Ok(WithdrawToken(recipient, amount, payer))
  {
    var input := StaticCall(TRANSFER, [Addr32(recipient), Amount(amount)]);
    StaticCallSlots(TRANSFER, [Addr32(recipient), Amount(amount)]);
    WrongSelector(SEND, input, 3);
    WrongSelector(APPROVE, input, 2);
    AddressRoundTrip(recipient);
    AmountSlot(amount);
  }

  /** An ERC-777 send is a withdrawal unless the announcements contract receives it. */
  lemma SendParsed(addrs: ContractAddresses, recipient: address, amount: u256, data: seq<byte>, payer: Payer)
    requires |data| < Pow256(8)
    ensures ParseToken(addrs, SendCall(recipient, amount, data), payer)
            == if recipient == addrs.announcements then ParseAnnouncement(data)
               else Ok(WithdrawToken(recipient, amount, payer))
  {
    hide FromBE, ToBE, Pow256, Concat, DynTail, RightAlign32, ParseAnnouncement;
    Widths();
    CallWithBytesArgs(SEND, [Addr32(recipient), Amount(amount)], data);
    AddressRoundTrip(recipient);
    AmountSlot(amount);
  }

  lemma AnnouncementNeverWithdraws(data: seq<byte>)
    ensures ParseAnnouncement(data).Ok? ==> ParseAnnouncement(data).value.AnnouncePacketKey?
  {
  }

  /** The key and the text of an announcement survive; an empty text is read as no address. */
  lemma AnnouncementParsed(caller: address, a: Announcement)
    requires |AddressText(a)| < Pow256(8)
    ensures ParseAnnouncement(KeyBindAnnounceBody(caller, a))
            == Ok(AnnouncePacketKey(a.packetKey, if AddressText(a) == [] then None else Some(AddressText(a))))
  {
    var words := [Addr32(caller), RightAlign32(a.bindingSignature[..32]),
                  RightAlign32(a.bindingSignature[32..]), RightAlign32(a.packetKey), WordUsize(160)];
    var head := Concat(words);
    var text := AddressText(a);
    var data := KeyBindAnnounceBody(caller, a);
    assert data == head + (DynTail(text) + []);
    var prefix: seq<byte> := Zeros(31) + [32];
    FromBEPadded(31, [32]);
    assert [32][..0] == [];
    assert FromBE([32]) == 32;
    var buffer := prefix + data;
    assert buffer[..32] == prefix && buffer[32..] == data;
    ConcatSlot(words, DynTail(text) + [], 3);
    ConcatSlot(words, [], 4);
    assert head + [] == head;
    RightAlignWhole(a.packetKey);
    Widths();
    DynTailRead(head, 4, text, []);
  }

  // ----- calls of the channels contract

  /** The words of a channels call: a Safe call is led by the node's own address. */
  function ForSafe(viaModule: bool, me: address, words: seq<word>): (w: seq<word>)
  {
    if viaModule then [Addr32(me)] + words else words
  }

  lemma ForSafeSlots(viaModule: bool, me: address, words: seq<word>, sel: selector)
    ensures var all := ForSafe(viaModule, me, words);
            var skip := if viaModule then 1 else 0;
            && |all| == |words| + skip
            && Call(sel, StaticCall(sel, all), |all|) == Some(Concat(all))
            && StartsWith(StaticCall(sel, all), sel[0])
            && forall i :: 0 <= i < |words| ==> Slot(Concat(all), i + skip) == words[i]
  {
    var all := ForSafe(viaModule, me, words);
    StaticCallSlots(sel, all);
    var skip := if viaModule then 1 else 0;
    forall i | 0 <= i < |words| ensures Slot(Concat(all), i + skip) == words[i] {
      assert all[i + skip] == words[i];
    }
  }

  lemma FundParsed(keccak: Digest, viaModule: bool, me: address, destination: address, amount: u256)
    ensures var sel := if viaModule then FUND_CHANNEL_SAFE else FUND_CHANNEL;
            var words := [Addr32(destination), TruncatedWord(Amount(amount), 12)];
            ParseChannels(keccak, StaticCall(sel, ForSafe(viaModule, me, words)), viaModule, me)
            == Ok(FundPaymentChannel(destination, amount % TWO_POW_96))
  {
    hide ChannelId, StaticCall, Concat, UintOf, TruncatedWord, Args;
    var sel := if viaModule then FUND_CHANNEL_SAFE else FUND_CHANNEL;
    var words := [Addr32(destination), TruncatedWord(Amount(amount), 12)];
    ForSafeSlots(viaModule, me, words, sel);
    AddressRoundTrip(destination);
    TruncatedWordValue(amount, 12);
    Widths();
    var all := ForSafe(viaModule, me, words);
    var skip := if viaModule then 1 else 0;
    assert Slot(Concat(all), 0 + skip) == words[0] && Slot(Concat(all), 1 + skip) == words[1];
  }

  lemma InitiateParsed(keccak: Digest, viaModule: bool, me: address, destination: address)
    ensures var sel := if viaModule then INITIATE_OUTGOING_CHANNEL_CLOSURE_SAFE else INITIATE_OUTGOING_CHANNEL_CLOSURE;
            ParseChannels(keccak, StaticCall(sel, ForSafe(viaModule, me, [Addr32(destination)])), viaModule, me)
            == Ok(InitializeChannelClosure(ChannelId(keccak, me, destination)))
  {
    var sel := if viaModule then INITIATE_OUTGOING_CHANNEL_CLOSURE_SAFE else INITIATE_OUTGOING_CHANNEL_CLOSURE;
    var all := ForSafe(viaModule, me, [Addr32(destination)]);
    ForSafeSlots(viaModule, me, [Addr32(destination)], sel);
    AddressRoundTrip(destination);
    var input := StaticCall(sel, all);
    var skip := if viaModule then 1 else 0;
    assert Slot(Concat(all), 0 + skip) == Addr32(destination);
    WrongSelector(if viaModule then FUND_CHANNEL_SAFE else FUND_CHANNEL, input, 2 + skip);
  }

  lemma FinalizeParsed(keccak: Digest, viaModule: bool, me: address, destination: address)
    ensures var sel := if viaModule then FINALIZE_OUTGOING_CHANNEL_CLOSURE_SAFE else FINALIZE_OUTGOING_CHANNEL_CLOSURE;
            ParseChannels(keccak, StaticCall(sel, ForSafe(viaModule, me, [Addr32(destination)])), viaModule, me)
            == Ok(FinalizeClosure(ChannelId(keccak, me, destination)))
  {
    var sel := if viaModule then FINALIZE_OUTGOING_CHANNEL_CLOSURE_SAFE else FINALIZE_OUTGOING_CHANNEL_CLOSURE;
    var all := ForSafe(viaModule, me, [Addr32(destination)]);
    ForSafeSlots(viaModule, me, [Addr32(destination)], sel);
    AddressRoundTrip(destination);
    var input := StaticCall(sel, all);
    var skip := if viaModule then 1 else 0;
    assert Slot(Concat(all), 0 + skip) == Addr32(destination);
    WrongSelector(if viaModule then FUND_CHANNEL_SAFE else FUND_CHANNEL, input, 2 + skip);
    WrongSelector(if viaModule then INITIATE_OUTGOING_CHANNEL_CLOSURE_SAFE else INITIATE_OUTGOING_CHANNEL_CLOSURE,
                  input, 1 + skip);
  }

  lemma IncomingParsed(keccak: Digest, viaModule: bool, me: address, source: address)
    ensures var sel := if viaModule then CLOSE_INCOMING_CHANNEL_SAFE else CLOSE_INCOMING_CHANNEL;
            ParseChannels(keccak, StaticCall(sel, ForSafe(viaModule, me, [Addr32(source)])), viaModule, me)
            == Ok(IncomingChannelClosure(ChannelId(keccak, source, me)))
  {
    var sel := if viaModule then CLOSE_INCOMING_CHANNEL_SAFE else CLOSE_INCOMING_CHANNEL;
    var all := ForSafe(viaModule, me, [Addr32(source)]);
    ForSafeSlots(viaModule, me, [Addr32(source)], sel);
    AddressRoundTrip(source);
    var input := StaticCall(sel, all);
    var skip := if viaModule then 1 else 0;
    assert Slot(Concat(all), 0 + skip) == Addr32(source);
    WrongSelector(if viaModule then FUND_CHANNEL_SAFE else FUND_CHANNEL, input, 2 + skip);
    WrongSelector(if viaModule then INITIATE_OUTGOING_CHANNEL_CLOSURE_SAFE else INITIATE_OUTGOING_CHANNEL_CLOSURE,
                  input, 1 + skip);
    WrongSelector(if viaModule then FINALIZE_OUTGOING_CHANNEL_CLOSURE_SAFE else FINALIZE_OUTGOING_CHANNEL_CLOSURE,
                  input, 1 + skip);
  }

  lemma RedeemParsed(keccak: Digest, viaModule: bool, me: address, acked: AckedTicket)
    requires RedeemWords(acked).Some?
    ensures var sel := if viaModule then REDEEM_TICKET_SAFE else REDEEM_TICKET;
            ParseChannels(keccak, StaticCall(sel, ForSafe(viaModule, me, RedeemWords(acked).value)), viaModule, me)
            == Ok(RedeemTicketOf(acked.channelId, acked.ticket.index % TWO_POW_48, acked.ticket.amount % TWO_POW_96))
  {
    hide ChannelId, StaticCall;
    hide Args, Concat, UintOf, TruncatedWord, FromBE, ToBE, Pow256, RightAlign32;
    var sel := if viaModule then REDEEM_TICKET_SAFE else REDEEM_TICKET;
    var words := RedeemWords(acked).value;
    var all := ForSafe(viaModule, me, words);
    ForSafeSlots(viaModule, me, words, sel);
    var input := StaticCall(sel, all);
    var skip := if viaModule then 1 else 0;
    assert Slot(Concat(all), 0 + skip) == words[0] == acked.channelId;
    assert Slot(Concat(all), 1 + skip) == words[1] == TruncatedWord(ToBE(acked.ticket.amount, 32), 12);
    assert Slot(Concat(all), 2 + skip) == words[2] == TruncatedWord(ToBE(acked.ticket.index, 8), 6);
    TruncatedWordValue(acked.ticket.amount, 12);
    TruncatedIndexValue(acked.ticket.index);
    Widths();
    WrongSelector(if viaModule then FUND_CHANNEL_SAFE else FUND_CHANNEL, input, 2 + skip);
    WrongSelector(if viaModule then INITIATE_OUTGOING_CHANNEL_CLOSURE_SAFE else INITIATE_OUTGOING_CHANNEL_CLOSURE,
                  input, 1 + skip);
    WrongSelector(if viaModule then FINALIZE_OUTGOING_CHANNEL_CLOSURE_SAFE else FINALIZE_OUTGOING_CHANNEL_CLOSURE,
                  input, 1 + skip);
    WrongSelector(if viaModule then CLOSE_INCOMING_CHANNEL_SAFE else CLOSE_INCOMING_CHANNEL, input, 1 + skip);
  }

  lemma TruncatedIndexValue(index: u64)
    ensures UintOf(TruncatedWord(ToBE(index, 8), 6), 6) == index % TWO_POW_48
  {
    ToBESuffix(index, 8, 6);
    RightAlignPads(ToBE(index, 6));
    FromToBEMod(index, 6);
    Widths();
  }

  // ----- the way of a call to its contract

  /** The request a generator makes of a call to one of the contracts. */
  function Wrapped(g: Generator, target: address, data: seq<byte>): (req: TransactionRequest)
  {
    if g.Safe? then ModuleExec(g.safeModule, target, data).value else Request(target, data).value
  }

  predicate FitsParser(g: Generator, safeModule: address, data: seq<byte>) {
    (g.Safe? ==> g.safeModule == safeModule) && |data| < 0x1_0000_0000_0000_0000
  }

  /** Behind the target and the module, the parser sees the call the generator wrapped. */
  lemma Unwrapped(keccak: Digest, g: Generator, safeModule: address, target: address, data: seq<byte>)
    requires FitsParser(g, safeModule, data)
    requires g.addrs.Lists(target)
    requires data != [] && data[0] != EXEC_TRANSACTION_FROM_MODULE[0]
    ensures Parse(keccak, Sent(Wrapped(g, target, data)), g.me, safeModule, g.addrs)
            == if g.Basic? && target == safeModule then Err(NotAModuleCall)
               else ParseCall(keccak, g.addrs, target, data, g.Safe?, g.me)
  {
    Widths();
    FromBEZeros(32);
    if g.Safe? {
      ExecRoundTrip(target, ZERO_WORD, data, 0);
    } else {
      WrongSelector(EXEC_TRANSACTION_FROM_MODULE, data, 4);
    }
  }

  /** The channels contract reads a call only if it carries one of its selectors. */
  lemma NotForChannels(keccak: Digest, input: seq<byte>, viaModule: bool, signer: address)
    requires input == [] || input[0] in {0x09, 0xa9, 0x9b, 0x7f, 0x32, 0x21, 0x1e, 0x8d}
    ensures ParseChannels(keccak, input, viaModule, signer).Err?
  {
    var skip := if viaModule then 1 else 0;
    WrongSelector(if viaModule then FUND_CHANNEL_SAFE else FUND_CHANNEL, input, 2 + skip);
    WrongSelector(if viaModule then INITIATE_OUTGOING_CHANNEL_CLOSURE_SAFE else INITIATE_OUTGOING_CHANNEL_CLOSURE,
                  input, 1 + skip);
    WrongSelector(if viaModule then FINALIZE_OUTGOING_CHANNEL_CLOSURE_SAFE else FINALIZE_OUTGOING_CHANNEL_CLOSURE,
                  input, 1 + skip);
    WrongSelector(if viaModule then CLOSE_INCOMING_CHANNEL_SAFE else CLOSE_INCOMING_CHANNEL, input, 1 + skip);
    WrongSelector(if viaModule then REDEEM_TICKET_SAFE else REDEEM_TICKET, input, 22 + skip);
  }

  /** A token call arrives at the token branch exactly when no earlier contract shadows the token. */
  lemma TokenDispatch(keccak: Digest, g: Generator, safeModule: address, data: seq<byte>)
    requires FitsParser(g, safeModule, data)
    requires data != [] && data[0] in {0x09, 0xa9, 0x9b}
    ensures var r := Parse(keccak, Sent(Wrapped(g, g.addrs.token, data)), g.me, safeModule, g.addrs);
            if TokenReached(g, safeModule) then r == ParseToken(g.addrs, data, PayerOf(g)) else r.Err?
  {
    Unwrapped(keccak, g, safeModule, g.addrs.token, data);
    NotForChannels(keccak, data, g.Safe?, g.me);
    WrongSelector(REGISTER_SAFE_BY_NODE, data, 1);
  }

  /** A channels call arrives at the channels branch exactly when no earlier contract shadows it. */
  lemma ChannelsDispatch(keccak: Digest, g: Generator, safeModule: address, data: seq<byte>)
    requires FitsParser(g, safeModule, data)
    requires data != [] && data[0] !in {0x46, 0x7f}
    ensures var r := Parse(keccak, Sent(Wrapped(g, g.addrs.channels, data)), g.me, safeModule, g.addrs);
            if ChannelsReached(g, safeModule) then r == ParseChannels(keccak, data, g.Safe?, g.me) else r.Err?
  {
    Unwrapped(keccak, g, safeModule, g.addrs.channels, data);
    WrongSelector(REGISTER_SAFE_BY_NODE, data, 1);
  }

  // ----- native transfers

  lemma EmptyCallFails(keccak: Digest, addrs: ContractAddresses, target: address, viaModule: bool, signer: address)
    ensures ParseCall(keccak, addrs, target, [], viaModule, signer).Err?
  {
    NotForChannels(keccak, [], viaModule, signer);
  }

  lemma AmountRead(amount: u256)
    ensures FromBE(Amount(amount)) == amount
  {
    Widths();
    FromToBE(amount, 32);
  }

  lemma BasicNative(keccak: Digest, addrs: ContractAddresses, me: address, safeModule: address,
                    destination: address, amount: u256)
    ensures Parse(keccak, Transaction(Some(destination), amount, []), me, safeModule, addrs)
            == Ok(WithdrawNative(destination, amount, Eoa))
            <==> amount > 0 && destination != safeModule && !addrs.Lists(destination)
  {
    EmptyCallFails(keccak, addrs, destination, false, me);
    assert DecodeExec([]) == None;
    hide ParseCall, DecodeExec, ToBE;
  }

  lemma SafeNative(keccak: Digest, addrs: ContractAddresses, me: address, safeModule: address,
                   destination: address, amount: u256)
    ensures var input := ExecFromModule(destination, Amount(amount), [], 0);
            Parse(keccak, Transaction(Some(safeModule), 0, input), me, safeModule, addrs)
            == Ok(WithdrawNative(destination, amount, SafePays))
            <==> amount > 0
  {
    hide ParseCall, DecodeExec, ExecFromModule, ToBE;
    EmptyCallFails(keccak, addrs, destination, true, me);
    AmountRead(amount);
    ExecRoundTrip(destination, Amount(amount), [], 0);
  }

  lemma NativeTransfer(keccak: Digest, g: Generator, safeModule: address, destination: address, amount: u256)
    requires g.Safe? ==> g.safeModule == safeModule
    ensures var a := Transfer(XDai, destination, amount);
            Parse(keccak, Sent(Generate(g, a).value), g.me, safeModule, g.addrs)
            == Ok(WithdrawNative(destination, amount, PayerOf(g)))
            <==> ReadBack(g, safeModule, a)
  {
    hide Parse, ExecFromModule, ToBE;
    AmountRead(amount);
    FromBEZeros(32);
    if g.Safe? {
      SafeNative(keccak, g.addrs, g.me, safeModule, destination, amount);
    } else {
      BasicNative(keccak, g.addrs, g.me, safeModule, destination, amount);
    }
  }

  // ----- the main results

  /** The generated request is read back as the action it was generated for. */
  predicate Recovered(keccak: Digest, g: Generator, safeModule: address, a: Action)
    requires Generate(g, a).Ok? && Meaning(keccak, g, a).Some?
  {
    Parse(keccak, Sent(Generate(g, a).value), g.me, safeModule, g.addrs) == Ok(Meaning(keccak, g, a).value)
  }

  /** The generator and the parser agree on the module, and the input fits a 64-bit `usize`. */
  predicate Applies(g: Generator, safeModule: address, a: Action) {
    && Generate(g, a).Ok?
    && (g.Safe? ==> g.safeModule == safeModule)
    && |Generate(g, a).value.input| < 0x1_0000_0000_0000_0000
  }

  lemma WrappedLength(g: Generator, target: address, data: seq<byte>)
    ensures |data| <= |Wrapped(g, target, data).input|
  {
  }

  lemma ThroughToken(keccak: Digest, g: Generator, safeModule: address, a: Action, data: seq<byte>)
    requires Applies(g, safeModule, a) && Meaning(keccak, g, a).Some?
    requires Generate(g, a).value == Wrapped(g, g.addrs.token, data)
    requires data != [] && data[0] in {0x09, 0xa9, 0x9b}
    ensures Recovered(keccak, g, safeModule, a)
            <==> TokenReached(g, safeModule)
                 && ParseToken(g.addrs, data, PayerOf(g)) == Ok(Meaning(keccak, g, a).value)
  {
    WrappedLength(g, g.addrs.token, data);
    TokenDispatch(keccak, g, safeModule, data);
  }

  lemma ThroughChannels(keccak: Digest, g: Generator, safeModule: address, a: Action, data: seq<byte>)
    requires Applies(g, safeModule, a) && Meaning(keccak, g, a).Some?
    requires Generate(g, a).value == Wrapped(g, g.addrs.channels, data)
    requires data != [] && data[0] !in {0x46, 0x7f}
    ensures Recovered(keccak, g, safeModule, a)
            <==> ChannelsReached(g, safeModule)
                 && ParseChannels(keccak, data, g.Safe?, g.me) == Ok(Meaning(keccak, g, a).value)
  {
    WrappedLength(g, g.addrs.channels, data);
    ChannelsDispatch(keccak, g, safeModule, data);
  }

  lemma ApproveReadBack(keccak: Digest, g: Generator, safeModule: address, spender: address, amount: u256)
    requires Applies(g, safeModule, Approve(spender, amount))
    ensures Recovered(keccak, g, safeModule, Approve(spender, amount))
            <==> ReadBack(g, safeModule, Approve(spender, amount))
  {
    var data := StaticCall(APPROVE, [Addr32(spender), Amount(amount)]);
    StaticCallSlots(APPROVE, [Addr32(spender), Amount(amount)]);
    ApproveParsed(g.addrs, spender, amount, PayerOf(g));
    ThroughToken(keccak, g, safeModule, Approve(spender, amount), data);
  }

  lemma TransferReadBack(keccak: Digest, g: Generator, safeModule: address, destination: address, amount: u256)
    requires Applies(g, safeModule, Transfer(WxHOPR, destination, amount))
    ensures Recovered(keccak, g, safeModule, Transfer(WxHOPR, destination, amount))
            <==> ReadBack(g, safeModule, Transfer(WxHOPR, destination, amount))
  {
    var data := StaticCall(TRANSFER, [Addr32(destination), Amount(amount)]);
    StaticCallSlots(TRANSFER, [Addr32(destination), Amount(amount)]);
    TransferParsed(g.addrs, destination, amount, PayerOf(g));
    ThroughToken(keccak, g, safeModule, Transfer(WxHOPR, destination, amount), data);
  }

  lemma SendGenerated(g: Generator, recipient: address, amount: u256, payload: Erc777Payload)
    requires Generate(g, SendErc777(recipient, amount, payload)).Ok?
    ensures Generate(g, SendErc777(recipient, amount, payload)).value
            == Wrapped(g, g.addrs.token, SendCall(recipient, amount, Erc777Data(payload)))
  {
    hide SendCall, Erc777Data, ExecFromModule;
  }

  lemma SendReadBack(keccak: Digest, g: Generator, safeModule: address, recipient: address, amount: u256,
                     payload: Erc777Payload)
    requires Applies(g, safeModule, SendErc777(recipient, amount, payload))
    ensures Recovered(keccak, g, safeModule, SendErc777(recipient, amount, payload))
            <==> ReadBack(g, safeModule, SendErc777(recipient, amount, payload))
  {
    hide Wrapped, ParseToken, Erc777Data, StaticCall, Parse, Recovered, TokenReached;
    var hook := Erc777Data(payload);
    SendGenerated(g, recipient, amount, payload);
    hide Generate, SendCall;
    Widths();
    SendParsed(g.addrs, recipient, amount, hook, PayerOf(g));
    AnnouncementNeverWithdraws(hook);
    ThroughToken(keccak, g, safeModule, SendErc777(recipient, amount, payload), SendCall(recipient, amount, hook));
  }

  lemma AnnounceGenerated(g: Generator, announcement: Announcement, fee: u256)
    ensures Generate(g, Announce(announcement, fee)).value
            == Wrapped(g, g.addrs.token,
                       SendCall(g.addrs.announcements, fee, KeyBindAnnounceBody(g.me, announcement)))
  {
    hide SendCall, KeyBindAnnounceBody, ExecFromModule;
  }

  lemma SendShape(recipient: address, amount: u256, data: seq<byte>)
    ensures var call := SendCall(recipient, amount, data); |call| >= |data| && call != [] && call[0] == 0x9b
  {
    hide ToBE, Concat;
  }

  /** The call data of an announcement, and what the token contract's caller reads in it. */
  lemma AnnounceCallParsed(g: Generator, announcement: Announcement, fee: u256) returns (data: seq<byte>)
    requires |Generate(g, Announce(announcement, fee)).value.input| < 0x1_0000_0000_0000_0000
    ensures Generate(g, Announce(announcement, fee)).value == Wrapped(g, g.addrs.token, data)
    ensures data != [] && data[0] == 0x9b
    ensures ParseToken(g.addrs, data, PayerOf(g))
            == Ok(AnnouncePacketKey(announcement.packetKey,
                                    if AddressText(announcement) == [] then None else Some(AddressText(announcement))))
  {
    var body := KeyBindAnnounceBody(g.me, announcement);
    assert |body| >= |AddressText(announcement)|;
    hide Generate, Wrapped, ParseToken, ParseAnnouncement, SendCall, KeyBindAnnounceBody;
    data := SendCall(g.addrs.announcements, fee, body);
    AnnounceGenerated(g, announcement, fee);
    WrappedLength(g, g.addrs.token, data);
    SendShape(g.addrs.announcements, fee, body);
    Widths();
    SendParsed(g.addrs, g.addrs.announcements, fee, body, PayerOf(g));
    AnnouncementParsed(g.me, announcement);
  }

  lemma AnnounceReadBack(keccak: Digest, g: Generator, safeModule: address, announcement: Announcement, fee: u256)
    requires Applies(g, safeModule, Announce(announcement, fee))
    ensures Recovered(keccak, g, safeModule, Announce(announcement, fee))
            <==> ReadBack(g, safeModule, Announce(announcement, fee))
  {
    hide Generate, Wrapped, Parse, ParseToken, Recovered, TokenReached;
    var data := AnnounceCallParsed(g, announcement, fee);
    ThroughToken(keccak, g, safeModule, Announce(announcement, fee), data);
  }

  lemma FundGenerated(g: Generator, destination: address, amount: u256)
    requires Generate(g, FundChannel(destination, amount)).Ok?
    ensures Generate(g, FundChannel(destination, amount)).value
            == Wrapped(g, g.addrs.channels,
                       StaticCall(if g.Safe? then FUND_CHANNEL_SAFE else FUND_CHANNEL,
                                  ForSafe(g.Safe?, g.me, [Addr32(destination), TruncatedWord(Amount(amount), 12)])))
  {
    hide ToBE, RightAlign32, TruncatedWord, StaticCall, ExecFromModule;
    var words := [Addr32(destination), TruncatedWord(Amount(amount), 12)];
    assert [Addr32(g.me)] + words == [Addr32(g.me), Addr32(destination), TruncatedWord(Amount(amount), 12)];
  }

  /** The call data of the request, and what the channels contract reads in it. */
  lemma FundCall(keccak: Digest, g: Generator, destination: address, amount: u256) returns (data: seq<byte>)
    requires Generate(g, FundChannel(destination, amount)).Ok?
    ensures Generate(g, FundChannel(destination, amount)).value == Wrapped(g, g.addrs.channels, data)
    ensures data != [] && data[0] !in {0x46, 0x7f}
    ensures ParseChannels(keccak, data, g.Safe?, g.me)
            == Ok(FundPaymentChannel(destination, amount % TWO_POW_96))
  {
    FundGenerated(g, destination, amount);
    data := StaticCall(if g.Safe? then FUND_CHANNEL_SAFE else FUND_CHANNEL,
                       ForSafe(g.Safe?, g.me, [Addr32(destination), TruncatedWord(Amount(amount), 12)]));
    FundParsed(keccak, g.Safe?, g.me, destination, amount);
  }

  lemma FundReadBack(keccak: Digest, g: Generator, safeModule: address, destination: address, amount: u256)
    requires Applies(g, safeModule, FundChannel(destination, amount))
    ensures Recovered(keccak, g, safeModule, FundChannel(destination, amount))
            <==> ReadBack(g, safeModule, FundChannel(destination, amount))
  {
    hide Generate, Wrapped, Parse, ParseChannels, Recovered, ChannelsReached, ChannelId;
    var data := FundCall(keccak, g, destination, amount);
    ModFits(amount, TWO_POW_96);
    ThroughChannels(keccak, g, safeModule, FundChannel(destination, amount), data);
  }

  lemma CloseGenerated(g: Generator, source: address)
    requires Generate(g, CloseIncomingChannel(source)).Ok?
    ensures Generate(g, CloseIncomingChannel(source)).value
            == Wrapped(g, g.addrs.channels,
                       StaticCall(if g.Safe? then CLOSE_INCOMING_CHANNEL_SAFE else CLOSE_INCOMING_CHANNEL,
                                  ForSafe(g.Safe?, g.me, [Addr32(source)])))
  {
    hide ToBE, RightAlign32, StaticCall, ExecFromModule;
    assert [Addr32(g.me)] + [Addr32(source)] == [Addr32(g.me), Addr32(source)];
  }

  /** The call data of the request, and what the channels contract reads in it. */
  lemma CloseCall(keccak: Digest, g: Generator, source: address) returns (data: seq<byte>)
    requires Generate(g, CloseIncomingChannel(source)).Ok?
    ensures Generate(g, CloseIncomingChannel(source)).value == Wrapped(g, g.addrs.channels, data)
    ensures data != [] && data[0] !in {0x46, 0x7f}
    ensures ParseChannels(keccak, data, g.Safe?, g.me)
            == Ok(IncomingChannelClosure(ChannelId(keccak, source, g.me)))
  {
    CloseGenerated(g, source);
    data := StaticCall(if g.Safe? then CLOSE_INCOMING_CHANNEL_SAFE else CLOSE_INCOMING_CHANNEL,
                       ForSafe(g.Safe?, g.me, [Addr32(source)]));
    IncomingParsed(keccak, g.Safe?, g.me, source);
  }

  lemma CloseReadBack(keccak: Digest, g: Generator, safeModule: address, source: address)
    requires Applies(g, safeModule, CloseIncomingChannel(source))
    ensures Recovered(keccak, g, safeModule, CloseIncomingChannel(source))
            <==> ReadBack(g, safeModule, CloseIncomingChannel(source))
  {
    hide Generate, Wrapped, Parse, ParseChannels, Recovered, ChannelsReached, ChannelId;
    var data := CloseCall(keccak, g, source);
    ThroughChannels(keccak, g, safeModule, CloseIncomingChannel(source), data);
  }

  lemma InitiateGenerated(g: Generator, destination: address)
    requires Generate(g, InitiateChannelClosure(destination)).Ok?
    ensures Generate(g, InitiateChannelClosure(destination)).value
            == Wrapped(g, g.addrs.channels,
                       StaticCall(if g.Safe? then INITIATE_OUTGOING_CHANNEL_CLOSURE_SAFE
                                  else INITIATE_OUTGOING_CHANNEL_CLOSURE,
                                  ForSafe(g.Safe?, g.me, [Addr32(destination)])))
  {
    hide ToBE, RightAlign32, StaticCall, ExecFromModule;
    assert [Addr32(g.me)] + [Addr32(destination)] == [Addr32(g.me), Addr32(destination)];
  }

  /** The call data of the request, and what the channels contract reads in it. */
  lemma InitiateCall(keccak: Digest, g: Generator, destination: address) returns (data: seq<byte>)
    requires Generate(g, InitiateChannelClosure(destination)).Ok?
    ensures Generate(g, InitiateChannelClosure(destination)).value == Wrapped(g, g.addrs.channels, data)
    ensures data != [] && data[0] !in {0x46, 0x7f}
    ensures ParseChannels(keccak, data, g.Safe?, g.me)
            == Ok(InitializeChannelClosure(ChannelId(keccak, g.me, destination)))
  {
    InitiateGenerated(g, destination);
    data := StaticCall(if g.Safe? then INITIATE_OUTGOING_CHANNEL_CLOSURE_SAFE else INITIATE_OUTGOING_CHANNEL_CLOSURE,
                       ForSafe(g.Safe?, g.me, [Addr32(destination)]));
    InitiateParsed(keccak, g.Safe?, g.me, destination);
  }

  lemma InitiateReadBack(keccak: Digest, g: Generator, safeModule: address, destination: address)
    requires Applies(g, safeModule, InitiateChannelClosure(destination))
    ensures Recovered(keccak, g, safeModule, InitiateChannelClosure(destination))
            <==> ReadBack(g, safeModule, InitiateChannelClosure(destination))
  {
    hide Generate, Wrapped, Parse, ParseChannels, Recovered, ChannelsReached, ChannelId;
    var data := InitiateCall(keccak, g, destination);
    ThroughChannels(keccak, g, safeModule, InitiateChannelClosure(destination), data);
  }

  lemma FinalizeGenerated(g: Generator, destination: address)
    requires Generate(g, FinalizeChannelClosure(destination)).Ok?
    ensures Generate(g, FinalizeChannelClosure(destination)).value
            == Wrapped(g, g.addrs.channels,
                       StaticCall(if g.Safe? then FINALIZE_OUTGOING_CHANNEL_CLOSURE_SAFE
                                  else FINALIZE_OUTGOING_CHANNEL_CLOSURE,
                                  ForSafe(g.Safe?, g.me, [Addr32(destination)])))
  {
    hide ToBE, RightAlign32, StaticCall, ExecFromModule;
    assert [Addr32(g.me)] + [Addr32(destination)] == [Addr32(g.me), Addr32(destination)];
  }

  /** The call data of the request, and what the channels contract reads in it. */
  lemma FinalizeCall(keccak: Digest, g: Generator, destination: address) returns (data: seq<byte>)
    requires Generate(g, FinalizeChannelClosure(destination)).Ok?
    ensures Generate(g, FinalizeChannelClosure(destination)).value == Wrapped(g, g.addrs.channels, data)
    ensures data != [] && data[0] !in {0x46, 0x7f}
    ensures ParseChannels(keccak, data, g.Safe?, g.me)
            == Ok(FinalizeClosure(ChannelId(keccak, g.me, destination)))
  {
    FinalizeGenerated(g, destination);
    data := StaticCall(if g.Safe? then FINALIZE_OUTGOING_CHANNEL_CLOSURE_SAFE else FINALIZE_OUTGOING_CHANNEL_CLOSURE,
                       ForSafe(g.Safe?, g.me, [Addr32(destination)]));
    FinalizeParsed(keccak, g.Safe?, g.me, destination);
  }

  lemma FinalizeReadBack(keccak: Digest, g: Generator, safeModule: address, destination: address)
    requires Applies(g, safeModule, FinalizeChannelClosure(destination))
    ensures Recovered(keccak, g, safeModule, FinalizeChannelClosure(destination))
            <==> ReadBack(g, safeModule, FinalizeChannelClosure(destination))
  {
    hide Generate, Wrapped, Parse, ParseChannels, Recovered, ChannelsReached, ChannelId;
    var data := FinalizeCall(keccak, g, destination);
    ThroughChannels(keccak, g, safeModule, FinalizeChannelClosure(destination), data);
  }

  lemma RedeemGenerated(g: Generator, acked: AckedTicket)
    requires Generate(g, RedeemTicket(acked)).Ok?
    ensures RedeemWords(acked).Some?
    ensures Generate(g, RedeemTicket(acked)).value
            == Wrapped(g, g.addrs.channels,
                       StaticCall(if g.Safe? then REDEEM_TICKET_SAFE else REDEEM_TICKET,
                                  ForSafe(g.Safe?, g.me, RedeemWords(acked).value)))
  {
  }

  /** The call data of the request, and what the channels contract reads in it. */
  lemma RedeemCall(keccak: Digest, g: Generator, acked: AckedTicket) returns (data: seq<byte>)
    requires Generate(g, RedeemTicket(acked)).Ok?
    ensures Generate(g, RedeemTicket(acked)).value == Wrapped(g, g.addrs.channels, data)
    ensures data != [] && data[0] !in {0x46, 0x7f}
    ensures ParseChannels(keccak, data, g.Safe?, g.me)
            == Ok(RedeemTicketOf(acked.channelId, acked.ticket.index % TWO_POW_48, acked.ticket.amount % TWO_POW_96))
  {
    RedeemGenerated(g, acked);
    data := StaticCall(if g.Safe? then REDEEM_TICKET_SAFE else REDEEM_TICKET,
                       ForSafe(g.Safe?, g.me, RedeemWords(acked).value));
    RedeemParsed(keccak, g.Safe?, g.me, acked);
  }

  lemma RedeemReadBack(keccak: Digest, g: Generator, safeModule: address, acked: AckedTicket)
    requires Applies(g, safeModule, RedeemTicket(acked))
    ensures Recovered(keccak, g, safeModule, RedeemTicket(acked))
            <==> ReadBack(g, safeModule, RedeemTicket(acked))
  {
    hide Generate, Wrapped, Parse, ParseChannels, Recovered, ChannelsReached, ChannelId, RedeemWords;
    var data := RedeemCall(keccak, g, acked);
    ModFits(acked.ticket.index, TWO_POW_48);
    ModFits(acked.ticket.amount, TWO_POW_96);
    assert Meaning(keccak, g, RedeemTicket(acked))
        == Some(RedeemTicketOf(acked.channelId, acked.ticket.index, acked.ticket.amount));
    ThroughChannels(keccak, g, safeModule, RedeemTicket(acked), data);
  }

  lemma RegistrationReadBack(keccak: Digest, g: Generator, safeModule: address, safe: address)
    requires Applies(g, safeModule, RegisterSafe(safe))
    ensures Recovered(keccak, g, safeModule, RegisterSafe(safe))
            <==> ReadBack(g, safeModule, RegisterSafe(safe))
  {
    var data := StaticCall(REGISTER_SAFE_BY_NODE, [Addr32(safe)]);
    StaticCallSlots(REGISTER_SAFE_BY_NODE, [Addr32(safe)]);
    RegisterParsed(safe);
    WrongSelector(EXEC_TRANSACTION_FROM_MODULE, data, 4);
  }

  lemma NativeReadBack(keccak: Digest, g: Generator, safeModule: address, destination: address, amount: u256)
    requires Applies(g, safeModule, Transfer(XDai, destination, amount))
    ensures Recovered(keccak, g, safeModule, Transfer(XDai, destination, amount))
            <==> ReadBack(g, safeModule, Transfer(XDai, destination, amount))
  {
    hide Parse, Generate, ReadBack, PayerOf;
    NativeTransfer(keccak, g, safeModule, destination, amount);
  }

  lemma XhoprNeverGenerated(g: Generator, destination: address, amount: u256)
    ensures Generate(g, Transfer(XHOPR, destination, amount)).Err?
  {
    hide ExecFromModule, StaticCall, ToBE;
  }

  /**
    The parser inverts the generators: whatever either generator builds for an action that has a
    parsed form is read back as exactly that action, with its amount, its channel and its payer, if
    and only if the action satisfies `ReadBack`.
   */
  lemma ParseInvertsGenerate(keccak: Digest, g: Generator, safeModule: address, a: Action)
    requires Applies(g, safeModule, a) && Meaning(keccak, g, a).Some?
    ensures Recovered(keccak, g, safeModule, a) <==> ReadBack(g, safeModule, a)
  {
    hide Parse, Generate, ReadBack, Recovered, ChannelId, AddressText, PayerOf;
    match a
    case Approve(spender, amount) => ApproveReadBack(keccak, g, safeModule, spender, amount);
    case Transfer(WxHOPR, destination, amount) => TransferReadBack(keccak, g, safeModule, destination, amount);
    case Transfer(XDai, destination, amount) => NativeReadBack(keccak, g, safeModule, destination, amount);
    case Transfer(XHOPR, destination, amount) => XhoprNeverGenerated(g, destination, amount);
    case SendErc777(recipient, amount, payload) => SendReadBack(keccak, g, safeModule, recipient, amount, payload);
    case Announce(announcement, fee) => AnnounceReadBack(keccak, g, safeModule, announcement, fee);
    case FundChannel(destination, amount) => FundReadBack(keccak, g, safeModule, destination, amount);
    case CloseIncomingChannel(source) => CloseReadBack(keccak, g, safeModule, source);
    case InitiateChannelClosure(destination) => InitiateReadBack(keccak, g, safeModule, destination);
    case FinalizeChannelClosure(destination) => FinalizeReadBack(keccak, g, safeModule, destination);
    case RedeemTicket(acked) => RedeemReadBack(keccak, g, safeModule, acked);
    case RegisterSafe(safe) => RegistrationReadBack(keccak, g, safeModule, safe);
    case _ =>
  }

  /**
    A Safe deployment has no parsed form of its own: the parser reports it as a token withdrawal of
    the signer to the stake factory.
   */
  lemma DeploymentLooksLikeWithdrawal(keccak: Digest, g: Generator, safeModule: address, balance: u256,
                                      admins: seq<address>, includeNode: bool, nonce: word)
    requires g.Basic? && TokenReached(g, safeModule) && g.addrs.nodeStakeFactory != g.addrs.announcements
    requires Applies(g, safeModule, DeploySafe(balance, admins, includeNode, nonce))
    ensures Parse(keccak, Sent(Generate(g, DeploySafe(balance, admins, includeNode, nonce)).value),
                  g.me, safeModule, g.addrs)
            == Ok(WithdrawToken(g.addrs.nodeStakeFactory, balance, Eoa))
  {
    var call := DeploymentCall(g, balance, admins, includeNode, nonce);
    WrappedLength(g, g.addrs.token, call);
    TokenDispatch(keccak, g, safeModule, call);
  }

  lemma DeploymentCall(g: Generator, balance: u256, admins: seq<address>, includeNode: bool, nonce: word)
    returns (call: seq<byte>)
    requires g.Basic? && g.addrs.nodeStakeFactory != g.addrs.announcements
    requires |Generate(g, DeploySafe(balance, admins, includeNode, nonce)).value.input| < 0x1_0000_0000_0000_0000
    ensures Generate(g, DeploySafe(balance, admins, includeNode, nonce)).value == Wrapped(g, g.addrs.token, call)
    ensures call != [] && call[0] == 0x9b
    ensures ParseToken(g.addrs, call, Eoa) == Ok(WithdrawToken(g.addrs.nodeStakeFactory, balance, Eoa))
  {
    var data := DeploymentGenerated(g.me, g.addrs, balance, admins, includeNode, nonce);
    call := SendCall(g.addrs.nodeStakeFactory, balance, data);
    WrappedLength(g, g.addrs.token, call);
    PlainSend(g.addrs, g.addrs.nodeStakeFactory, balance, data);
  }

  lemma DeploymentGenerated(me: address, addrs: ContractAddresses, balance: u256, admins: seq<address>,
                            includeNode: bool, nonce: word) returns (data: seq<byte>)
    ensures BasicGenerate(me, addrs, DeploySafe(balance, admins, includeNode, nonce))
            == Request(addrs.token, SendCall(addrs.nodeStakeFactory, balance, data))
  {
    hide SendCall, UserData, SafeGenerate;
    data := UserData(addrs.channels, admins, includeNode, nonce);
  }

  lemma PlainSend(addrs: ContractAddresses, recipient: address, amount: u256, data: seq<byte>)
    requires recipient != addrs.announcements && |SendCall(recipient, amount, data)| < 0x1_0000_0000_0000_0000
    ensures var call := SendCall(recipient, amount, data);
            && call != [] && call[0] == 0x9b
            && ParseToken(addrs, call, Eoa) == Ok(WithdrawToken(recipient, amount, Eoa))
  {
    Widths();
    assert |SendCall(recipient, amount, data)| >= |data|;
    SendParsed(addrs, recipient, amount, data, Eoa);
  }

  // ----- actions without a parsed form

  lemma UnknownCallFails(keccak: Digest, addrs: ContractAddresses, target: address, data: seq<byte>,
                         viaModule: bool, signer: address)
    requires data != [] && data[0] in {0x32, 0x21, 0x1e, 0x8d}
    ensures ParseCall(keccak, addrs, target, data, viaModule, signer).Err?
  {
    NotForChannels(keccak, data, viaModule, signer);
    WrongSelector(REGISTER_SAFE_BY_NODE, data, 1);
    WrongSelector(SEND, data, 3);
    WrongSelector(APPROVE, data, 2);
    WrongSelector(TRANSFER, data, 2);
  }

  lemma BundleRejected(keccak: Digest, g: Generator, call: seq<byte>, burn: u256)
    requires g.Safe?
    requires |PaidServiceRegistryPayload(g.addrs.token, g.addrs.serviceRegistry, call, burn)| < 0x1_0000_0000_0000_0000
    ensures var input := PaidServiceRegistryPayload(g.addrs.token, g.addrs.serviceRegistry, call, burn);
            Parse(keccak, Sent(WithGas(g.safeModule, input).value), g.me, g.safeModule, g.addrs).Err?
  {
    var calls := RegistryCalls(g.addrs.token, g.addrs.serviceRegistry, call, burn);
    var multi := CallWithBytes(MULTI_SEND, [], MultiSend.EncodeCalls(calls));
    Widths();
    ExecRoundTrip(SAFE_MULTI_SEND_ADDRESS, Zeros(32), multi, 1);
    FromBEZeros(32);
    UnknownCallFails(keccak, g.addrs, SAFE_MULTI_SEND_ADDRESS, multi, true, g.me);
  }

  /** A call of the service registry is refused, whichever way it is made. */
  lemma RegistryCallRejected(keccak: Digest, g: Generator, safeModule: address, data: seq<byte>)
    requires FitsParser(g, safeModule, data)
    requires data != [] && data[0] in {0x32, 0x21, 0x1e}
    ensures Parse(keccak, Sent(Wrapped(g, g.addrs.serviceRegistry, data)), g.me, safeModule, g.addrs).Err?
  {
    hide Parse, ParseCall, Wrapped;
    Unwrapped(keccak, g, safeModule, g.addrs.serviceRegistry, data);
    UnknownCallFails(keccak, g.addrs, g.addrs.serviceRegistry, data, g.Safe?, g.me);
  }

  lemma CallStarts(sel: selector, words: seq<word>, data: seq<byte>)
    ensures StartsWith(StaticCall(sel, words), sel[0]) && StartsWith(CallWithBytes(sel, words, data), sel[0])
  {
    hide Concat, DynTail;
  }

  /** What the generators build for the registry: a plain call, or for a Safe the bundle of a paid write. */
  lemma RegistryGenerated(g: Generator, a: Action) returns (data: seq<byte>)
    requires a.RegisterService? || a.UpdateService? || a.DeregisterService?
    requires Generate(g, a).Ok?
    ensures data != [] && data[0] in {0x32, 0x21, 0x1e}
    ensures Generate(g, a).value ==
            if g.Safe? && !a.DeregisterService?
            then WithGas(g.safeModule,
                         PaidServiceRegistryPayload(g.addrs.token, g.addrs.serviceRegistry, data, a.burn)).value
            else Wrapped(g, g.addrs.serviceRegistry, data)
  {
    hide StaticCall, CallWithBytes, ExecFromModule, PaidServiceRegistryPayload, ToBE;
    match a
    case RegisterService(t, metadata, _) =>
      CallStarts(SELF_REGISTER, [t, Addr32(g.me)], metadata);
      data := ServiceWrite(SELF_REGISTER, t, g.me, metadata);
    case UpdateService(t, metadata, _) =>
      CallStarts(SELF_UPDATE, [t, Addr32(g.me)], metadata);
      data := ServiceWrite(SELF_UPDATE, t, g.me, metadata);
    case DeregisterService(t) =>
      CallStarts(SELF_DEREGISTER, [t, Addr32(g.me)], []);
      data := StaticCall(SELF_DEREGISTER, [t, Addr32(g.me)]);
  }

  lemma DeregisterNodeRejected(keccak: Digest, g: Generator, safeModule: address)
    requires Applies(g, safeModule, DeregisterNode)
    ensures Parse(keccak, Sent(Generate(g, DeregisterNode).value), g.me, safeModule, g.addrs).Err?
  {
    WrongSelector(EXEC_TRANSACTION_FROM_MODULE, Generate(g, DeregisterNode).value.input, 4);
  }

  /** Registry writes and deregistrations are never mistaken for another action. */
  lemma ServiceWritesRejected(keccak: Digest, g: Generator, safeModule: address, a: Action)
    requires a.RegisterService? || a.UpdateService? || a.DeregisterService? || a.DeregisterNode?
    requires Applies(g, safeModule, a)
    ensures Parse(keccak, Sent(Generate(g, a).value), g.me, safeModule, g.addrs).Err?
  {
    hide Parse, Generate, PaidServiceRegistryPayload, Wrapped;
    if a.DeregisterNode? {
      DeregisterNodeRejected(keccak, g, safeModule);
    } else {
      var data := RegistryGenerated(g, a);
      if g.Safe? && !a.DeregisterService? {
        BundleRejected(keccak, g, data, a.burn);
      } else {
        WrappedLength(g, g.addrs.serviceRegistry, data);
        RegistryCallRejected(keccak, g, safeModule, data);
      }
    }
  }
}
