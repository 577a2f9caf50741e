/**
  What the chain executes for a generated request: which contract gets which call, from whom, with
  which value, and what it reads in it.
 */
module Execution {
  import opened Abi
  import opened Bytes
  import opened Contracts
  import opened MultiSend
  import opened Payload
  import opened Primitives
  import opened Tickets
  import opened Wrappers
  import P = ParserProofs

  /** A message that reaches a contract or an account: from the node or from its Safe, a call or a delegate call (1). */
  datatype Message = Message(fromSafe: bool, operation: nat, to: address, value: nat, data: seq<byte>)

  /** The calls of a bundle, each made by the Safe. */
  function FromSafe(calls: seq<Call>): (ms: seq<Message>)
    ensures |ms| == |calls|
  {
    seq(|calls|, i requires 0 <= i < |calls| =>
                   Message(true, calls[i].operation, calls[i].to, FromBE(calls[i].value), calls[i].data))
  }

  /** The Safe makes the call its module is asked for; a delegate call of MultiSend makes the bundled calls. */
  function ByModule(exec: ModuleCall): (ms: Option<seq<Message>>)
  {
    if exec.operation != 1 || exec.to != SAFE_MULTI_SEND_ADDRESS
    then Some([Message(true, exec.operation, exec.to, exec.value, exec.data)])
    else
      match BundleOf(exec.data)
      case None => None
      case Some(calls) => Some(FromSafe(calls))
  }

  /** The messages of a request sent by a node, whose Safe has the given module. */
  function Executed(safeModule: Option<address>, req: TransactionRequest): (ms: Option<seq<Message>>)
  {
    match req.to
    case None => None
    case Some(to) =>
      match if safeModule == Some(to) then DecodeExec(req.input) else None
      case None => Some([Message(false, 0, to, FromBE(req.value), req.input)])
      case Some(exec) => ByModule(exec)
  }

  function ModuleOf(g: Generator): (m: Option<address>)
  {
    match g
    case Basic(_, _) => None
    case Safe(_, _, safeModule) => Some(safeModule)
  }

  // ----- what each action is to do

  /** A single plain call that moves no native value. */
  predicate Single(ms: seq<Message>, fromSafe: bool, to: address) {
    |ms| == 1 && Plain(ms[0], fromSafe, to)
  }

  predicate Plain(m: Message, fromSafe: bool, to: address) {
    m.fromSafe == fromSafe && m.operation == 0 && m.to == to && m.value == 0
  }

  predicate Token(g: Generator, ms: seq<Message>, r: Received) {
    Single(ms, g.Safe?, g.addrs.token) && ReadToken(ms[0].data) == Some(r)
  }

  predicate Channels(g: Generator, ms: seq<Message>, r: Received) {
    Single(ms, g.Safe?, g.addrs.channels) && ReadChannels(g.Safe?, ms[0].data) == Some(r)
  }

  /** A token send whose data its recipient reads as `means` says. */
  predicate Send(g: Generator, ms: seq<Message>, recipient: address, amount: nat, means: seq<byte> -> bool) {
    && Single(ms, g.Safe?, g.addrs.token)
    && match ReadToken(ms[0].data)
       case Some(Sends(to, a, hook)) => to == recipient && a == amount && means(hook)
       case _ => false
  }

  /** A registry write, after an approval of the burn for the registry if there is one. */
  predicate Write(g: Generator, ms: seq<Message>, burn: nat, r: Received) {
    && |ms| == (if burn > 0 then 2 else 1)
    && Plain(ms[|ms| - 1], g.Safe?, g.addrs.serviceRegistry)
    && ReadServiceRegistry(ms[|ms| - 1].data) == Some(r)
    && (burn > 0 ==>
          Plain(ms[0], g.Safe?, g.addrs.token)
          && ReadToken(ms[0].data) == Some(Approves(g.addrs.serviceRegistry, burn)))
  }

  function Node(g: Generator): (n: Option<address>) {
    if g.Safe? then Some(g.me) else None
  }

  ghost predicate Fulfils(g: Generator, a: Action, ms: seq<Message>) {
    match a
    case Approve(spender, amount) => Token(g, ms, Approves(spender, amount))
    case Transfer(XDai, destination, amount) => ms == [Message(g.Safe?, 0, destination, amount, [])]
    case Transfer(_, destination, amount) => Token(g, ms, Transfers(destination, amount))
    case SendErc777(recipient, amount, payload) => Send(g, ms, recipient, amount, hook => Shields(hook, payload))
    case Announce(announcement, fee) =>
      Send(g, ms, g.addrs.announcements, fee, hook => Binds(hook, g.me, announcement))
    case FundChannel(destination, amount) => Channels(g, ms, Funds(Node(g), destination, amount % Pow256(12)))
    case CloseIncomingChannel(source) => Channels(g, ms, ClosesIncoming(Node(g), source))
    case InitiateChannelClosure(destination) => Channels(g, ms, InitiatesClosure(Node(g), destination))
    case FinalizeChannelClosure(destination) => Channels(g, ms, FinalizesClosure(Node(g), destination))
    case RedeemTicket(acked) =>
      && Single(ms, g.Safe?, g.addrs.channels)
      && (match ReadChannels(g.Safe?, ms[0].data)
          case Some(Redeems(node, words)) => node == Node(g) && CarriesTicket(words, acked)
          case _ => false)
    case RegisterSafe(safe) =>
      Single(ms, false, g.addrs.nodeSafeRegistry) && ReadSafeRegistry(ms[0].data) == Some(RegistersSafe(safe))
    case DeregisterNode =>
      g.Safe? && Single(ms, false, g.safeModule) && ReadModule(ms[0].data) == Some(DeregistersNode(g.me))
    case RegisterService(serviceType, metadata, burn) =>
      Write(g, ms, burn, RegistersService(serviceType, g.me, metadata))
    case UpdateService(serviceType, metadata, burn) =>
      Write(g, ms, burn, UpdatesService(serviceType, g.me, metadata))
    case DeregisterService(serviceType) => Write(g, ms, 0, DeregistersService(serviceType, g.me))
    case DeploySafe(balance, admins, includeNode, nonce) =>
      Send(g, ms, g.addrs.nodeStakeFactory, balance,
           hook => Deploys(hook, g.addrs.channels, admins, includeNode, nonce))
  }

  /**
    The request does what the action says, with the gas limit of its generator and native value only
    for a native transfer.
   */
  ghost predicate Performs(g: Generator, a: Action, req: TransactionRequest) {
    && req.gasLimit == (if g.Safe? then Some(400_000) else None)
    && FromBE(req.value) == (if g.Basic? && a.Transfer? && a.currency == XDai then a.amount else 0)
    && Executed(ModuleOf(g), req).Some?
    && Fulfils(g, a, Executed(ModuleOf(g), req).value)
  }

  // ----- the way to a contract

  /** A wrapped call arrives as one plain call of its target, from the Safe or from the node. */
  lemma WrappedExecutes(g: Generator, target: address, data: seq<byte>)
    requires |data| < Pow256(8)
    ensures var req := P.Wrapped(g, target, data);
            && Executed(ModuleOf(g), req) == Some([Message(g.Safe?, 0, target, 0, data)])
            && req.gasLimit == (if g.Safe? then Some(400_000) else None) && FromBE(req.value) == 0
  {
    hide DecodeExec, ExecFromModule, BundleOf, FromBE, Pow256;
    FromBEZeros(32);
    if g.Safe? {
      ExecRoundTrip(target, ZERO_WORD, data, 0);
    }
  }

  // ----- what the contracts read

  lemma WordsRead(sel: selector, words: seq<word>)
    ensures var data := StaticCall(sel, words);
            && |data| == 4 + 32 * |words| && data[..4] == sel && data[4..] == Concat(words)
            && forall i :: 0 <= i < |words| ==> Slot(data[4..], i) == words[i]
  {
    StaticCallArgs(sel, words);
  }

  lemma AmountRead(v: u256)
    ensures FromBE(Amount(v)) == v
  {
    Widths();
    FromToBE(v, 32);
  }

  lemma TokenWordsRead(sel: selector, account: address, amount: u256)
    requires sel == APPROVE || sel == TRANSFER
    ensures ReadToken(StaticCall(sel, [Addr32(account), Amount(amount)]))
            == Some(if sel == APPROVE then Approves(account, amount) else Transfers(account, amount))
  {
    hide Addr32, Amount, StaticCall, FromBE;
    WordsRead(sel, [Addr32(account), Amount(amount)]);
    AddressRoundTrip(account);
    AmountRead(amount);
    assert APPROVE[0] != TRANSFER[0];
  }

  lemma BytesRead(sel: selector, words: seq<word>, data: seq<byte>)
    requires |words| <= 2 && |data| < Pow256(8)
    ensures var call := CallWithBytes(sel, words, data);
            && |call| >= 4 + 32 * (|words| + 1) && call[..4] == sel
            && (forall i :: 0 <= i < |words| ==> Slot(call[4..], i) == words[i])
            && BytesOf(call[4..], |words|) == Some(data)
  {
    hide Concat, DynTail, WordUsize;
    Widths();
    CallWithBytesArgs(sel, words, data);
  }

  lemma SendRead(recipient: address, amount: u256, data: seq<byte>)
    requires |data| < Pow256(8)
    ensures ReadToken(SendCall(recipient, amount, data)) == Some(Sends(recipient, amount, data))
    ensures |SendCall(recipient, amount, data)| >= |data|
  {
    BytesRead(SEND, [Addr32(recipient), Amount(amount)], data);
    hide Addr32, Amount, CallWithBytes, BytesOf, FromBE;
    AddressRoundTrip(recipient);
    AmountRead(amount);
    assert SEND[0] != APPROVE[0] && SEND[0] != TRANSFER[0];
  }

  lemma SafeRegistryRead(safe: address)
    ensures ReadSafeRegistry(StaticCall(REGISTER_SAFE_BY_NODE, [Addr32(safe)])) == Some(RegistersSafe(safe))
  {
    hide Addr32, StaticCall;
    WordsRead(REGISTER_SAFE_BY_NODE, [Addr32(safe)]);
    AddressRoundTrip(safe);
  }

  lemma ModuleRead(node: address)
    ensures ReadModule(StaticCall(DEREGISTER_NODE_BY_SAFE, [Addr32(node)])) == Some(DeregistersNode(node))
  {
    hide Addr32, StaticCall;
    WordsRead(DEREGISTER_NODE_BY_SAFE, [Addr32(node)]);
    AddressRoundTrip(node);
  }

  lemma ServiceWriteRead(sel: selector, serviceType: word, node: address, metadata: seq<byte>)
    requires (sel == SELF_REGISTER || sel == SELF_UPDATE) && |metadata| < Pow256(8)
    ensures ReadServiceRegistry(ServiceWrite(sel, serviceType, node, metadata))
            == Some(if sel == SELF_REGISTER then RegistersService(serviceType, node, metadata)
                    else UpdatesService(serviceType, node, metadata))
    ensures |metadata| <= |ServiceWrite(sel, serviceType, node, metadata)|
  {
    BytesRead(sel, [serviceType, Addr32(node)], metadata);
    hide Addr32, CallWithBytes, BytesOf;
    AddressRoundTrip(node);
    assert SELF_REGISTER[0] != SELF_UPDATE[0] && sel[0] != SELF_DEREGISTER[0];
  }

  lemma ServiceDeregistrationRead(serviceType: word, node: address)
    ensures ReadServiceRegistry(StaticCall(SELF_DEREGISTER, [serviceType, Addr32(node)]))
            == Some(DeregistersService(serviceType, node))
  {
    hide Addr32, StaticCall;
    WordsRead(SELF_DEREGISTER, [serviceType, Addr32(node)]);
    AddressRoundTrip(node);
  }

  lemma ChannelWordsRead(g: Generator, plain: selector, bySafe: selector, words: seq<word>) returns (data: seq<byte>)
    ensures data == StaticCall(if g.Safe? then bySafe else plain, P.ForSafe(g.Safe?, g.me, words))
    ensures var first := if g.Safe? then 1 else 0;
            && |data| == 4 + 32 * (first + |words|) && data[..4] == (if g.Safe? then bySafe else plain)
            && (g.Safe? ==> AddressOf(Slot(data[4..], 0)) == g.me)
            && (words != [] ==> Slot(data[4..], first) == words[0])
            && forall i :: 0 <= i < |words| ==> Slot(data[4..], first + i) == words[i]
  {
    var all := P.ForSafe(g.Safe?, g.me, words);
    data := StaticCall(if g.Safe? then bySafe else plain, all);
    WordsRead(if g.Safe? then bySafe else plain, all);
    hide Addr32, StaticCall;
    AddressRoundTrip(g.me);
    if g.Safe? {
      assert forall i :: 0 <= i < |words| ==> all[1 + i] == words[i];
    }
  }

  lemma CloseRead(g: Generator, source: address) returns (data: seq<byte>)
    ensures data == StaticCall(if g.Safe? then CLOSE_INCOMING_CHANNEL_SAFE else CLOSE_INCOMING_CHANNEL,
                               P.ForSafe(g.Safe?, g.me, [Addr32(source)]))
    ensures ReadChannels(g.Safe?, data) == Some(ClosesIncoming(Node(g), source)) && |data| < 100
  {
    hide Addr32, StaticCall, P.ForSafe;
    data := ChannelWordsRead(g, CLOSE_INCOMING_CHANNEL, CLOSE_INCOMING_CHANNEL_SAFE, [Addr32(source)]);
    AddressRoundTrip(source);
  }

  lemma InitiateRead(g: Generator, destination: address) returns (data: seq<byte>)
    ensures data == StaticCall(if g.Safe? then INITIATE_OUTGOING_CHANNEL_CLOSURE_SAFE
                               else INITIATE_OUTGOING_CHANNEL_CLOSURE,
                               P.ForSafe(g.Safe?, g.me, [Addr32(destination)]))
    ensures ReadChannels(g.Safe?, data) == Some(InitiatesClosure(Node(g), destination)) && |data| < 100
  {
    hide Addr32, StaticCall, P.ForSafe;
    data := ChannelWordsRead(g, INITIATE_OUTGOING_CHANNEL_CLOSURE, INITIATE_OUTGOING_CHANNEL_CLOSURE_SAFE,
                             [Addr32(destination)]);
    AddressRoundTrip(destination);
    assert data[..4][0] != (if g.Safe? then CLOSE_INCOMING_CHANNEL_SAFE else CLOSE_INCOMING_CHANNEL)[0];
  }

  lemma FinalizeRead(g: Generator, destination: address) returns (data: seq<byte>)
    ensures data == StaticCall(if g.Safe? then FINALIZE_OUTGOING_CHANNEL_CLOSURE_SAFE
                               else FINALIZE_OUTGOING_CHANNEL_CLOSURE,
                               P.ForSafe(g.Safe?, g.me, [Addr32(destination)]))
    ensures ReadChannels(g.Safe?, data) == Some(FinalizesClosure(Node(g), destination)) && |data| < 100
  {
    hide Addr32, StaticCall, P.ForSafe;
    data := ChannelWordsRead(g, FINALIZE_OUTGOING_CHANNEL_CLOSURE, FINALIZE_OUTGOING_CHANNEL_CLOSURE_SAFE,
                             [Addr32(destination)]);
    AddressRoundTrip(destination);
    ghost var first := data[..4][0];
    assert first != (if g.Safe? then CLOSE_INCOMING_CHANNEL_SAFE else CLOSE_INCOMING_CHANNEL)[0];
    assert first != (if g.Safe? then INITIATE_OUTGOING_CHANNEL_CLOSURE_SAFE
                     else INITIATE_OUTGOING_CHANNEL_CLOSURE)[0];
  }

  /** Funding and redemption carry none of the selectors the contract looks at before. */
  lemma NoClosure(bySafe: bool, sel: selector)
    requires sel[0] in {0xfc, 0x0a, 0xeb, 0xab}
    ensures sel != if bySafe then CLOSE_INCOMING_CHANNEL_SAFE else CLOSE_INCOMING_CHANNEL
    ensures sel != if bySafe then INITIATE_OUTGOING_CHANNEL_CLOSURE_SAFE else INITIATE_OUTGOING_CHANNEL_CLOSURE
    ensures sel != if bySafe then FINALIZE_OUTGOING_CHANNEL_CLOSURE_SAFE else FINALIZE_OUTGOING_CHANNEL_CLOSURE
    ensures sel[0] in {0xeb, 0xab} ==> sel != if bySafe then FUND_CHANNEL_SAFE else FUND_CHANNEL
  {
    var close := if bySafe then CLOSE_INCOMING_CHANNEL_SAFE else CLOSE_INCOMING_CHANNEL;
    var initiate := if bySafe then INITIATE_OUTGOING_CHANNEL_CLOSURE_SAFE else INITIATE_OUTGOING_CHANNEL_CLOSURE;
    var finalize := if bySafe then FINALIZE_OUTGOING_CHANNEL_CLOSURE_SAFE else FINALIZE_OUTGOING_CHANNEL_CLOSURE;
    var fund := if bySafe then FUND_CHANNEL_SAFE else FUND_CHANNEL;
    assert sel[0] != close[0] && sel[0] != initiate[0] && sel[0] != finalize[0];
    assert sel[0] in {0xeb, 0xab} ==> sel[0] != fund[0];
  }

  lemma FundedAmount(amount: u256)
    ensures UintOf(TruncatedWord(Amount(amount), 12), 12) == amount % Pow256(12)
  {
    TruncatedWordValue(amount, 12);
  }

  lemma FundRead(g: Generator, destination: address, amount: u256) returns (data: seq<byte>)
    ensures data == StaticCall(if g.Safe? then FUND_CHANNEL_SAFE else FUND_CHANNEL,
                               P.ForSafe(g.Safe?, g.me, [Addr32(destination), TruncatedWord(Amount(amount), 12)]))
    ensures ReadChannels(g.Safe?, data) == Some(Funds(Node(g), destination, amount % Pow256(12))) && |data| < 200
  {
    var words := [Addr32(destination), TruncatedWord(Amount(amount), 12)];
    hide Addr32, Amount, StaticCall, P.ForSafe, TruncatedWord, Pow256, UintOf, Slots;
    AddressRoundTrip(destination);
    FundedAmount(amount);
    data := ChannelWordsRead(g, FUND_CHANNEL, FUND_CHANNEL_SAFE, words);
    var first := if g.Safe? then 1 else 0;
    assert Slot(data[4..], first + 1) == words[1];
    NoClosure(g.Safe?, data[..4]);
  }

  lemma TicketCarried(acked: AckedTicket)
    requires RedeemWords(acked).Some?
    ensures CarriesTicket(RedeemWords(acked).value, acked)
  {
    var words := RedeemableTicketWords(acked.channelId, acked.ticket, acked.response).value;
    TicketWordsMod(acked.channelId, acked.ticket, acked.response);
    hide RedeemableTicketWords, UintOf, Pow256;
    assert RedeemWords(acked).value[8..] == acked.vrf.value;
    assert forall i :: 0 <= i < 8 ==> RedeemWords(acked).value[i] == words[i];
  }

  lemma TicketWordsMod(channelId: word, t: Ticket, response: word)
    requires t.signature.Some?
    ensures var w := RedeemableTicketWords(channelId, t, response).value;
            && w[0] == channelId && UintOf(w[1], 12) == t.amount % Pow256(12)
            && UintOf(w[2], 6) == t.index % Pow256(6) && UintOf(w[3], 3) == t.channelEpoch % Pow256(3)
            && w[4][25..] == t.encodedWinProb && w[5] == t.signature.value[..32]
            && w[6] == t.signature.value[32..] && w[7] == response
  {
    hide FromBE, ToBE, Pow256;
    TruncatedWordValue(t.amount, 12);
    ShortWordValue(t.index, 8, 6);
    ShortWordValue(t.channelEpoch, 4, 3);
    RightAlignPads(t.encodedWinProb);
    RightAlignWhole(t.signature.value[0..32]);
    RightAlignWhole(t.signature.value[32..64]);
    RightAlignWhole(response);
  }

  lemma ShortWordValue(v: nat, width: nat, keep: nat)
    requires keep <= width <= 32
    ensures UintOf(TruncatedWord(ToBE(v, width), keep), keep) == v % Pow256(keep)
  {
    ToBESuffix(v, width, keep);
    RightAlignPads(ToBE(v, keep));
    FromToBEMod(v, keep);
  }

  lemma RedeemRead(g: Generator, acked: AckedTicket) returns (data: seq<byte>)
    requires RedeemWords(acked).Some?
    ensures data == StaticCall(if g.Safe? then REDEEM_TICKET_SAFE else REDEEM_TICKET,
                               P.ForSafe(g.Safe?, g.me, RedeemWords(acked).value))
    ensures ReadChannels(g.Safe?, data) == Some(Redeems(Node(g), RedeemWords(acked).value)) && |data| < 1000
  {
    hide Addr32, StaticCall, P.ForSafe, RedeemWords, UintOf;
    var words := RedeemWords(acked).value;
    data := ChannelWordsRead(g, REDEEM_TICKET, REDEEM_TICKET_SAFE, words);
    var first := if g.Safe? then 1 else 0;
    assert Slots(data[4..], first, 22) == words;
    NoClosure(g.Safe?, data[..4]);
  }

  // ----- what the receivers of token sends read

  lemma ShieldRead(p: Erc777Payload)
    ensures Shields(Erc777Data(p), p)
  {
    hide FromBE, ToBE, Pow256;
    var words := [Addr32(p.aggregator), Amount(p.ownerHash), Amount(p.token), Amount(p.amount),
                  Amount(p.ephemeralX), Amount(p.ephemeralY), RightAlign32(ToBE(p.viewTag, 2))];
    forall i | 0 <= i < 7 ensures Slot(Concat(words), i) == words[i] {
      ConcatSlot(words, [], i);
      assert Concat(words) + [] == Concat(words);
    }
    AddressRoundTrip(p.aggregator);
    AmountRead(p.ownerHash);
    AmountRead(p.token);
    AmountRead(p.amount);
    AmountRead(p.ephemeralX);
    AmountRead(p.ephemeralY);
    TagRead(p.viewTag);
  }

  lemma TagRead(tag: u16)
    ensures FromBE(RightAlign32(ToBE(tag, 2))) == tag
  {
    RightAlignPads(ToBE(tag, 2));
    FromToBE(tag, 2);
  }

  lemma BindingRead(caller: address, a: Announcement)
    requires |AddressText(a)| < Pow256(8)
    ensures Binds(KeyBindAnnounceBody(caller, a), caller, a)
  {
    hide FromBE, ToBE, Pow256, DynTail, BytesOf, WordUsize, RightAlign32;
    var words := [Addr32(caller), RightAlign32(a.bindingSignature[..32]),
                  RightAlign32(a.bindingSignature[32..]), RightAlign32(a.packetKey), WordUsize(160)];
    var head, tail := Concat(words), DynTail(AddressText(a));
    forall i | 0 <= i < 5 ensures Slot(head + tail, i) == words[i] && Slot(head, i) == words[i] {
      ConcatSlot(words, tail, i);
      ConcatSlot(words, [], i);
      assert head + [] == head;
    }
    AddressRoundTrip(caller);
    RightAlignWhole(a.bindingSignature[..32]);
    RightAlignWhole(a.bindingSignature[32..]);
    RightAlignWhole(a.packetKey);
    Widths();
    DynTailRead(head, 4, AddressText(a), []);
    assert tail + [] == tail;
  }

  lemma DeploymentRead(channels: address, admins: seq<address>, includeNode: bool, nonce: word)
    requires |admins| < Pow256(8)
    ensures Deploys(UserData(channels, admins, includeNode, nonce), channels, admins, includeNode, nonce)
  {
    hide FromBE, ToBE, Pow256, UserDataBody, AddressListOf;
    Widths();
    UserDataReadBack(FunctionId(includeNode), nonce, channels + CAPABILITY_PERMISSIONS, admins);
    FromToBE(0x0105b97dcdf19d454ebe36f91ed516c2b90ee79f4a46af96a0138c1f5403c1cc, 32);
    FromToBE(0xdd24c144db91d1bc600aac99393baf8f8c664ba461188f057e37f2c37b962b45, 32);
  }

  // ----- each action

  /** The generator accepts the action, and the call data has a length a machine can hold. */
  ghost predicate Built(g: Generator, a: Action) {
    Generate(g, a).Ok? && |Generate(g, a).value.input| < Pow256(8)
  }

  lemma ByCall(g: Generator, a: Action, target: address, data: seq<byte>)
    requires Built(g, a) && Generate(g, a).value == P.Wrapped(g, target, data)
    requires !(a.Transfer? && a.currency == XDai)
    requires Fulfils(g, a, [Message(g.Safe?, 0, target, 0, data)])
    ensures Performs(g, a, Generate(g, a).value)
  {
    hide Fulfils, Executed, P.Wrapped, Generate, Pow256, FromBE;
    P.WrappedLength(g, target, data);
    WrappedExecutes(g, target, data);
  }

  lemma ApprovePerforms(g: Generator, spender: address, amount: u256)
    requires Built(g, Approve(spender, amount))
    ensures Performs(g, Approve(spender, amount), Generate(g, Approve(spender, amount)).value)
  {
    hide ReadToken, StaticCall, Performs, Pow256;
    var data := StaticCall(APPROVE, [Addr32(spender), Amount(amount)]);
    TokenWordsRead(APPROVE, spender, amount);
    ByCall(g, Approve(spender, amount), g.addrs.token, data);
  }

  lemma TransferPerforms(g: Generator, destination: address, amount: u256)
    requires Built(g, Transfer(WxHOPR, destination, amount))
    ensures Performs(g, Transfer(WxHOPR, destination, amount), Generate(g, Transfer(WxHOPR, destination, amount)).value)
  {
    hide ReadToken, StaticCall, Performs, Pow256;
    var data := StaticCall(TRANSFER, [Addr32(destination), Amount(amount)]);
    TokenWordsRead(TRANSFER, destination, amount);
    ByCall(g, Transfer(WxHOPR, destination, amount), g.addrs.token, data);
  }

  lemma NativePerforms(g: Generator, destination: address, amount: u256)
    ensures Built(g, Transfer(XDai, destination, amount)) ==>
              Performs(g, Transfer(XDai, destination, amount), Generate(g, Transfer(XDai, destination, amount)).value)
  {
    hide ExecFromModule, DecodeExec, BundleOf, FromBE, ToBE, Pow256;
    AmountRead(amount);
    FromBEZeros(32);
    Widths();
    if g.Safe? {
      ExecRoundTrip(destination, Amount(amount), [], 0);
    }
  }

  lemma SendPerforms(g: Generator, a: Action, recipient: address, amount: u256, hook: seq<byte>)
    requires Built(g, a) && !a.Transfer?
    requires Generate(g, a).value == P.Wrapped(g, g.addrs.token, SendCall(recipient, amount, hook))
    requires |hook| < Pow256(8) ==>
               ReadToken(SendCall(recipient, amount, hook)) == Some(Sends(recipient, amount, hook)) ==>
                 Fulfils(g, a, [Message(g.Safe?, 0, g.addrs.token, 0, SendCall(recipient, amount, hook))])
    ensures Performs(g, a, Generate(g, a).value)
  {
    hide Fulfils, P.Wrapped, Generate, Pow256, SendCall, Performs, ReadToken;
    P.WrappedLength(g, g.addrs.token, SendCall(recipient, amount, hook));
    SendIsLonger(recipient, amount, hook);
    SendRead(recipient, amount, hook);
    ByCall(g, a, g.addrs.token, SendCall(recipient, amount, hook));
  }

  lemma SendIsLonger(recipient: address, amount: u256, hook: seq<byte>)
    ensures |hook| <= |SendCall(recipient, amount, hook)|
  {
    hide Concat, WordUsize;
  }

  lemma ShieldPerforms(g: Generator, recipient: address, amount: u256, payload: Erc777Payload)
    requires Built(g, SendErc777(recipient, amount, payload))
    ensures Performs(g, SendErc777(recipient, amount, payload),
                     Generate(g, SendErc777(recipient, amount, payload)).value)
  {
    hide ReadToken, Performs, Pow256, P.Wrapped, SendCall, Erc777Data, Shields;
    P.SendGenerated(g, recipient, amount, payload);
    hide Generate;
    ShieldRead(payload);
    SendPerforms(g, SendErc777(recipient, amount, payload), recipient, amount, Erc777Data(payload));
  }

  lemma AnnouncePerforms(g: Generator, announcement: Announcement, fee: u256)
    requires Built(g, Announce(announcement, fee))
    ensures Performs(g, Announce(announcement, fee), Generate(g, Announce(announcement, fee)).value)
  {
    hide ReadToken, Performs, Pow256, P.Wrapped, SendCall, KeyBindAnnounceBody, Binds, Generate;
    var hook := KeyBindAnnounceBody(g.me, announcement);
    P.AnnounceGenerated(g, announcement, fee);
    TextIsShorter(g.me, announcement);
    if |hook| < Pow256(8) {
      BindingRead(g.me, announcement);
    }
    SendPerforms(g, Announce(announcement, fee), g.addrs.announcements, fee, hook);
  }

  lemma TextIsShorter(me: address, a: Announcement)
    ensures |AddressText(a)| <= |KeyBindAnnounceBody(me, a)|
  {
    hide Concat, WordUsize;
  }

  lemma DeployPerforms(g: Generator, balance: u256, admins: seq<address>, includeNode: bool, nonce: word)
    requires Built(g, DeploySafe(balance, admins, includeNode, nonce))
    ensures Performs(g, DeploySafe(balance, admins, includeNode, nonce),
                     Generate(g, DeploySafe(balance, admins, includeNode, nonce)).value)
  {
    hide ReadToken, Performs, Pow256, SendCall, UserData, Deploys;
    var hook := UserData(g.addrs.channels, admins, includeNode, nonce);
    assert Generate(g, DeploySafe(balance, admins, includeNode, nonce)).value
        == P.Wrapped(g, g.addrs.token, SendCall(g.addrs.nodeStakeFactory, balance, hook));
    hide Generate, P.Wrapped;
    AdminsAreFewer(g.addrs.channels, admins, includeNode, nonce);
    if |hook| < Pow256(8) {
      DeploymentRead(g.addrs.channels, admins, includeNode, nonce);
    }
    SendPerforms(g, DeploySafe(balance, admins, includeNode, nonce), g.addrs.nodeStakeFactory, balance, hook);
  }

  lemma AdminsAreFewer(channels: address, admins: seq<address>, includeNode: bool, nonce: word)
    ensures |admins| <= |UserData(channels, admins, includeNode, nonce)|
  {
    hide AddressWords, FunctionId, WordUsize;
  }

  lemma ChannelPerforms(g: Generator, a: Action, data: seq<byte>, r: Received)
    requires Built(g, a) && Generate(g, a).value == P.Wrapped(g, g.addrs.channels, data)
    requires a.FundChannel? || a.CloseIncomingChannel? || a.InitiateChannelClosure? || a.FinalizeChannelClosure?
    requires ReadChannels(g.Safe?, data) == Some(r)
    requires match a
             case FundChannel(d, amount) => r == Funds(Node(g), d, amount % Pow256(12))
             case CloseIncomingChannel(s) => r == ClosesIncoming(Node(g), s)
             case InitiateChannelClosure(d) => r == InitiatesClosure(Node(g), d)
             case FinalizeChannelClosure(d) => r == FinalizesClosure(Node(g), d)
    ensures Performs(g, a, Generate(g, a).value)
  {
    hide ReadChannels, P.Wrapped, Generate, Performs, Pow256;
    ByCall(g, a, g.addrs.channels, data);
  }

  lemma ClosingPerforms(g: Generator, a: Action)
    requires Built(g, a)
    requires a.FundChannel? || a.CloseIncomingChannel? || a.InitiateChannelClosure? || a.FinalizeChannelClosure?
    ensures Performs(g, a, Generate(g, a).value)
  {
    hide ReadChannels, P.Wrapped, Generate, Performs, Pow256, StaticCall, P.ForSafe;
    match a
    case FundChannel(d, amount) =>
      var data := FundRead(g, d, amount);
      P.FundGenerated(g, d, amount);
      ChannelPerforms(g, a, data, Funds(Node(g), d, amount % Pow256(12)));
    case CloseIncomingChannel(s) =>
      var data := CloseRead(g, s);
      P.CloseGenerated(g, s);
      ChannelPerforms(g, a, data, ClosesIncoming(Node(g), s));
    case InitiateChannelClosure(d) =>
      var data := InitiateRead(g, d);
      P.InitiateGenerated(g, d);
      ChannelPerforms(g, a, data, InitiatesClosure(Node(g), d));
    case FinalizeChannelClosure(d) =>
      var data := FinalizeRead(g, d);
      P.FinalizeGenerated(g, d);
      ChannelPerforms(g, a, data, FinalizesClosure(Node(g), d));
  }

  lemma RedeemPerforms(g: Generator, acked: AckedTicket)
    requires Built(g, RedeemTicket(acked))
    ensures Performs(g, RedeemTicket(acked), Generate(g, RedeemTicket(acked)).value)
  {
    hide ReadChannels, P.Wrapped, Generate, Performs, Pow256, StaticCall, P.ForSafe, RedeemWords, CarriesTicket;
    P.RedeemGenerated(g, acked);
    var data := RedeemRead(g, acked);
    TicketCarried(acked);
    ByCall(g, RedeemTicket(acked), g.addrs.channels, data);
  }

  /** Registrations are sent by the node itself, whichever generator built them. */
  lemma Direct(g: Generator, to: address, data: seq<byte>, req: TransactionRequest)
    requires req.to == Some(to) && req.input == data && req.value == ZERO_WORD
    requires data != [] && data[0] != EXEC_TRANSACTION_FROM_MODULE[0]
    ensures Executed(ModuleOf(g), req) == Some([Message(false, 0, to, 0, data)])
  {
    FromBEZeros(32);
    P.WrongSelector(EXEC_TRANSACTION_FROM_MODULE, data, 4);
    hide FromBE;
  }

  lemma RegistrationPerforms(g: Generator, safe: address)
    requires Built(g, RegisterSafe(safe))
    ensures Performs(g, RegisterSafe(safe), Generate(g, RegisterSafe(safe)).value)
  {
    hide ReadSafeRegistry, Pow256, Executed, FromBE;
    var data := StaticCall(REGISTER_SAFE_BY_NODE, [Addr32(safe)]);
    P.CallStarts(REGISTER_SAFE_BY_NODE, [Addr32(safe)], []);
    SafeRegistryRead(safe);
    hide StaticCall;
    FromBEZeros(32);
    Direct(g, g.addrs.nodeSafeRegistry, data, Generate(g, RegisterSafe(safe)).value);
  }

  lemma DeregistrationPerforms(g: Generator)
    requires Built(g, DeregisterNode)
    ensures Performs(g, DeregisterNode, Generate(g, DeregisterNode).value)
  {
    hide ReadModule, Pow256, Executed, FromBE;
    var data := StaticCall(DEREGISTER_NODE_BY_SAFE, [Addr32(g.me)]);
    P.CallStarts(DEREGISTER_NODE_BY_SAFE, [Addr32(g.me)], []);
    ModuleRead(g.me);
    hide StaticCall;
    FromBEZeros(32);
    Direct(g, g.safeModule, data, Generate(g, DeregisterNode).value);
  }

  // ----- registry writes

  /** A paid write goes through the module in a bundle, any other is wrapped, and without a Safe there is no burn. */
  predicate SentAs(g: Generator, a: Action, req: TransactionRequest, data: seq<byte>)
    requires a.RegisterService? || a.UpdateService? || a.DeregisterService?
  {
    if g.Safe? && !a.DeregisterService? then
      Ok(req) == WithGas(g.safeModule,
                         PaidServiceRegistryPayload(g.addrs.token, g.addrs.serviceRegistry, data, a.burn))
    else req == P.Wrapped(g, g.addrs.serviceRegistry, data) && (a.DeregisterService? || a.burn == 0)
  }

  predicate IsWrite(g: Generator, a: Action, r: Received) {
    match a
    case RegisterService(t, metadata, _) => r == RegistersService(t, g.me, metadata)
    case UpdateService(t, metadata, _) => r == UpdatesService(t, g.me, metadata)
    case DeregisterService(t) => r == DeregistersService(t, g.me)
    case _ => false
  }

  /** The write behind a registry action, and how the registry reads it. */
  lemma WriteRead(g: Generator, a: Action) returns (data: seq<byte>, r: Received)
    requires Built(g, a) && (a.RegisterService? || a.UpdateService? || a.DeregisterService?)
    ensures SentAs(g, a, Generate(g, a).value, data) && IsWrite(g, a, r)
    ensures |data| < Pow256(8) ==> ReadServiceRegistry(data) == Some(r)
  {
    hide ReadServiceRegistry, CallWithBytes, StaticCall, PaidServiceRegistryPayload, Pow256, ExecFromModule;
    match a
    case RegisterService(t, metadata, _) =>
      data, r := ServiceWrite(SELF_REGISTER, t, g.me, metadata), RegistersService(t, g.me, metadata);
      ServiceWritten(SELF_REGISTER, t, g.me, metadata);
    case UpdateService(t, metadata, _) =>
      data, r := ServiceWrite(SELF_UPDATE, t, g.me, metadata), UpdatesService(t, g.me, metadata);
      ServiceWritten(SELF_UPDATE, t, g.me, metadata);
    case DeregisterService(t) =>
      data, r := StaticCall(SELF_DEREGISTER, [t, Addr32(g.me)]), DeregistersService(t, g.me);
      ServiceDeregistrationRead(t, g.me);
  }

  lemma ServiceWritten(sel: selector, serviceType: word, node: address, metadata: seq<byte>)
    requires sel == SELF_REGISTER || sel == SELF_UPDATE
    ensures |ServiceWrite(sel, serviceType, node, metadata)| < Pow256(8) ==>
              ReadServiceRegistry(ServiceWrite(sel, serviceType, node, metadata))
              == Some(if sel == SELF_REGISTER then RegistersService(serviceType, node, metadata)
                      else UpdatesService(serviceType, node, metadata))
  {
    hide ReadServiceRegistry, Pow256;
    assert |metadata| <= |ServiceWrite(sel, serviceType, node, metadata)| by {
      hide Concat, WordUsize;
    }
    if |ServiceWrite(sel, serviceType, node, metadata)| < Pow256(8) {
      ServiceWriteRead(sel, serviceType, node, metadata);
    }
  }

  /** An approval in a bundle is what the token contract reads as one. */
  lemma ApprovalRead(c: Call, token: address, spender: address, amount: nat)
    requires IsApproval(c, token, spender, amount)
    ensures ReadToken(c.data) == Some(Approves(spender, amount))
  {
    hide FromBE;
  }

  lemma BundleExecutes(g: Generator, call: seq<byte>, burn: u256, r: Received)
    requires g.Safe? && |PaidServiceRegistryPayload(g.addrs.token, g.addrs.serviceRegistry, call, burn)| < Pow256(8)
    requires ReadServiceRegistry(call) == Some(r)
    ensures var input := PaidServiceRegistryPayload(g.addrs.token, g.addrs.serviceRegistry, call, burn);
            var ms := Executed(Some(g.safeModule), WithGas(g.safeModule, input).value);
            ms.Some? && Write(g, ms.value, burn, r)
  {
    hide PaidServiceRegistryPayload, DecodeExec, BundleOf, ReadServiceRegistry, ReadToken, Pow256, FromBE, IsApproval;
    var input := PaidServiceRegistryPayload(g.addrs.token, g.addrs.serviceRegistry, call, burn);
    PaidServiceRegistryBundle(g.addrs.token, g.addrs.serviceRegistry, call, burn);
    var calls := DecodeBundle(input).value;
    FromBEZeros(32);
    if burn > 0 {
      ApprovalRead(calls[0], g.addrs.token, g.addrs.serviceRegistry, burn);
      ApprovalShape(calls[0], g.addrs.token, g.addrs.serviceRegistry, burn);
    }
  }

  lemma ApprovalShape(c: Call, token: address, spender: address, amount: nat)
    requires IsApproval(c, token, spender, amount)
    ensures c.operation == 0 && c.to == token && FromBE(c.value) == 0
  {}

  lemma WritePerforms(g: Generator, a: Action)
    requires Built(g, a) && (a.RegisterService? || a.UpdateService? || a.DeregisterService?)
    ensures Performs(g, a, Generate(g, a).value)
  {
    hide ReadServiceRegistry, P.Wrapped, Generate, PaidServiceRegistryPayload, Executed, FromBE, Pow256, ReadToken;
    var data, r := WriteRead(g, a);
    if g.Safe? && !a.DeregisterService? {
      PayloadIsLonger(g.addrs.token, g.addrs.serviceRegistry, data, a.burn);
      BundleExecutes(g, data, a.burn, r);
      FromBEZeros(32);
    } else {
      P.WrappedLength(g, g.addrs.serviceRegistry, data);
      ByCall(g, a, g.addrs.serviceRegistry, data);
    }
  }

  lemma PayloadIsLonger(token: address, registry: address, call: seq<byte>, burn: u256)
    ensures |call| <= |PaidServiceRegistryPayload(token, registry, call, burn)|
  {
    hide EncodeOne, EncodeCalls, StaticCall, Concat, WordUsize;
    var calls := RegistryCalls(token, registry, call, burn);
    BundleBody(token, registry, call, burn);
    LongerWrapped(SAFE_MULTI_SEND_ADDRESS, Zeros(32), [], EncodeCalls(calls), 1);
  }

  /**
    Whatever either generator builds, the chain executes what the action says: the right contract
    gets one plain call from the right account and reads every argument of the action in it, native
    value moves for native transfers only, and a paid registry write is led by the approval of its burn.
   */
  lemma GeneratedPerforms(g: Generator, a: Action)
    requires Built(g, a)
    ensures Performs(g, a, Generate(g, a).value)
  {
    hide Performs, Generate;
    match a
    case Approve(spender, amount) => ApprovePerforms(g, spender, amount);
    case Transfer(WxHOPR, destination, amount) => TransferPerforms(g, destination, amount);
    case Transfer(XDai, destination, amount) => NativePerforms(g, destination, amount);
    case Transfer(XHOPR, destination, amount) => P.XhoprNeverGenerated(g, destination, amount);
    case SendErc777(recipient, amount, payload) => ShieldPerforms(g, recipient, amount, payload);
    case Announce(announcement, fee) => AnnouncePerforms(g, announcement, fee);
    case RedeemTicket(acked) => RedeemPerforms(g, acked);
    case RegisterSafe(safe) => RegistrationPerforms(g, safe);
    case DeregisterNode => DeregistrationPerforms(g);
    case DeploySafe(balance, admins, includeNode, nonce) => DeployPerforms(g, balance, admins, includeNode, nonce);
    case RegisterService(_, _, _) => WritePerforms(g, a);
    case UpdateService(_, _, _) => WritePerforms(g, a);
    case DeregisterService(_) => WritePerforms(g, a);
    case _ => ClosingPerforms(g, a);
  }

  // ----- what is refused

  /** A generator refuses an action, with one of two reasons. */
  predicate Refuses(g: Generator, a: Action, e: PayloadError) {
    match a
    case Transfer(currency, _, _) => e == InvalidArguments && currency == XHOPR
    case FundChannel(destination, amount) =>
      e == InvalidArguments && (destination == g.me || (g.Safe? && amount > MAX_FUNDING_AMOUNT))
    case CloseIncomingChannel(source) => e == InvalidArguments && source == g.me
    case InitiateChannelClosure(destination) => e == InvalidArguments && destination == g.me
    case FinalizeChannelClosure(destination) => e == InvalidArguments && destination == g.me
    case RedeemTicket(acked) => e == InvalidArguments && (acked.ticket.signature.None? || acked.vrf.None?)
    case DeregisterNode => e == InvalidState && g.Basic?
    case RegisterService(_, _, burn) => e == InvalidState && g.Basic? && burn > 0
    case UpdateService(_, _, burn) => e == InvalidState && g.Basic? && burn > 0
    case DeploySafe(_, _, _, _) => e == InvalidState && g.Safe?
    case _ => false
  }

  lemma GenerateRefuses(g: Generator, a: Action, e: PayloadError)
    ensures Generate(g, a) == Err(e) <==> Refuses(g, a, e)
  {
    hide StaticCall, CallWithBytes, ExecFromModule, PaidServiceRegistryPayload, UserData, ToBE, TruncatedWord,
         KeyBindAnnounceBody, Erc777Data;
  }
}
