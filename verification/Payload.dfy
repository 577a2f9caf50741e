/**
  The payload generators: node actions compiled to call data, directly for the signing account or
  wrapped in a call of the Safe module.
 */
module Payload {
  import opened Abi
  import opened Bytes
  import opened MultiSend
  import opened Primitives
  import opened Tickets
  import opened Wrappers

  const APPROVE: selector := [0x09, 0x5e, 0xa7, 0xb3]
  const TRANSFER: selector := [0xa9, 0x05, 0x9c, 0xbb]
  const SEND: selector := [0x9b, 0xd9, 0xbb, 0xc6]
  const REGISTER_SAFE_BY_NODE: selector := [0x7f, 0x93, 0x59, 0x31]
  const DEREGISTER_NODE_BY_SAFE: selector := [0x91, 0x60, 0x7c, 0x4c]
  const SELF_REGISTER: selector := [0x32, 0x60, 0x05, 0xaf]
  const SELF_UPDATE: selector := [0x21, 0x0c, 0x32, 0x98]
  const SELF_DEREGISTER: selector := [0x1e, 0x46, 0xf9, 0x07]
  const MULTI_SEND: selector := [0x8d, 0x80, 0xff, 0x0a]
  const EXEC_TRANSACTION_FROM_MODULE: selector := [0x46, 0x87, 0x21, 0xa7]
  const FUND_CHANNEL: selector := [0xfc, 0x55, 0x30, 0x9a]
  const FUND_CHANNEL_SAFE: selector := [0x0a, 0xbe, 0xc5, 0x8f]
  const CLOSE_INCOMING_CHANNEL: selector := [0x1a, 0x7f, 0xfe, 0x7a]
  const CLOSE_INCOMING_CHANNEL_SAFE: selector := [0x54, 0xa2, 0xed, 0xf5]
  const INITIATE_OUTGOING_CHANNEL_CLOSURE: selector := [0x7c, 0x8e, 0x28, 0xda]
  const INITIATE_OUTGOING_CHANNEL_CLOSURE_SAFE: selector := [0xbd, 0xa6, 0x5f, 0x45]
  const FINALIZE_OUTGOING_CHANNEL_CLOSURE: selector := [0x23, 0xcb, 0x3a, 0xc0]
  const FINALIZE_OUTGOING_CHANNEL_CLOSURE_SAFE: selector := [0x65, 0x15, 0x14, 0xbf]
  const REDEEM_TICKET: selector := [0xeb, 0x13, 0xeb, 0x11]
  const REDEEM_TICKET_SAFE: selector := [0xab, 0x9b, 0x6b, 0xa7]

  const SAFE_MULTI_SEND_ADDRESS: address :=
    [0x38, 0x86, 0x9b, 0xf6, 0x6a, 0x61, 0xcf, 0x6b, 0xdb, 0x99,
     0x6a, 0x6a, 0xe4, 0x0d, 0x58, 0x53, 0xfd, 0x43, 0xb5, 0x26]
  const DEFAULT_TX_GAS: nat := 400_000

  datatype ContractAddresses = ContractAddresses(
    token: address, channels: address, announcements: address, nodeSafeRegistry: address,
    serviceRegistry: address, ticketPriceOracle: address, winningProbabilityOracle: address,
    nodeSafeMigration: address, nodeStakeFactory: address, moduleImplementation: address)
  {
    predicate Lists(a: address) {
      || a == token || a == channels || a == announcements || a == nodeSafeRegistry
      || a == serviceRegistry || a == ticketPriceOracle || a == winningProbabilityOracle
      || a == nodeSafeMigration || a == nodeStakeFactory || a == moduleImplementation
    }
  }

  /** `CurvyErc777Payload::DirectShield`: an aggregator and a note of static members. */
  datatype Erc777Payload = DirectShield(
    aggregator: address, ownerHash: u256, token: u256, amount: u256,
    ephemeralX: u256, ephemeralY: u256, viewTag: u16)

  /** A packet key with its signature, and the text of the address it announces, if any. */
  datatype Announcement = Announcement(
    packetKey: packetkey, bindingSignature: signature, multiaddress: Option<seq<byte>>)

  type vrfwords = s: seq<word> | |s| == 14 witness
    [ZERO_WORD, ZERO_WORD, ZERO_WORD, ZERO_WORD, ZERO_WORD, ZERO_WORD, ZERO_WORD,
     ZERO_WORD, ZERO_WORD, ZERO_WORD, ZERO_WORD, ZERO_WORD, ZERO_WORD, ZERO_WORD]

  /** A redeemable ticket; `vrf` is absent when the computation of a witness fails. */
  datatype AckedTicket = AckedTicket(channelId: word, ticket: Ticket, response: word, vrf: Option<vrfwords>)

  datatype Action =
    | Approve(spender: address, amount: u256)
    | Transfer(currency: Currency, destination: address, amount: u256)
    | SendErc777(recipient: address, amount: u256, payload: Erc777Payload)
    | Announce(announcement: Announcement, fee: u256)
    | FundChannel(destination: address, amount: u256)
    | CloseIncomingChannel(source: address)
    | InitiateChannelClosure(destination: address)
    | FinalizeChannelClosure(destination: address)
    | RedeemTicket(acked: AckedTicket)
    | RegisterSafe(safe: address)
    | DeregisterNode
    | RegisterService(serviceType: word, metadata: seq<byte>, burn: u256)
    | UpdateService(serviceType: word, metadata: seq<byte>, burn: u256)
    | DeregisterService(serviceType: word)
    | DeploySafe(balance: u256, admins: seq<address>, includeNode: bool, nonce: word)

  datatype PayloadError = InvalidArguments | InvalidState

  datatype TransactionRequest = TransactionRequest(
    to: Option<address>, input: seq<byte>, value: word, gasLimit: Option<u64>)

  datatype Generator =
    | Basic(me: address, addrs: ContractAddresses)
    | Safe(me: address, addrs: ContractAddresses, safeModule: address)

  // ----- call data

  function Amount(v: u256): (w: word)
  {
    ToBE(v, 32)
  }

  /** `execTransactionFromModule(address,uint256,bytes,uint8)`. */
  function ExecFromModule(to: address, value: word, callData: seq<byte>, operation: byte): (s: seq<byte>)
  {
    EXEC_TRANSACTION_FROM_MODULE
    + (Concat([Addr32(to), value, WordUsize(128), RightAlign32([operation])]) + DynTail(callData))
  }

  method EncodeExecFromModuleWithOperation(to: address, value: word, callData: seq<byte>, operation: byte)
    returns (out: seq<byte>)
    ensures out == ExecFromModule(to, value, callData, operation)
  {
    var offset := 4 * 32;
    var tail := AbiDynTail(callData);
    out := EXEC_TRANSACTION_FROM_MODULE;
    out := out + Addr32(to);
    out := out + value;
    out := out + WordUsize(offset);
    out := out + RightAlign32([operation]);
    FourWords(Addr32(to), value, WordUsize(128), RightAlign32([operation]));
    out := out + tail;
  }

  lemma FourWords(a: word, b: word, c: word, d: word)
    ensures Concat([a, b, c, d]) == a + b + c + d
  {
    ConcatAppend([], a);
    ConcatAppend([a], b);
    ConcatAppend([a, b], c);
    ConcatAppend([a, b, c], d);
    assert [] + [a] == [a] && [a] + [b] == [a, b] && [a, b] + [c] == [a, b, c] && [a, b, c] + [d] == [a, b, c, d];
  }

  function Erc777Data(p: Erc777Payload): (s: seq<byte>)
    ensures |s| == 224
  {
    Concat([Addr32(p.aggregator), Amount(p.ownerHash), Amount(p.token), Amount(p.amount),
            Amount(p.ephemeralX), Amount(p.ephemeralY), RightAlign32(ToBE(p.viewTag, 2))])
  }

  /** The `KeyBindAndAnnouncePayload` struct without its outer offset word. */
  function KeyBindAnnounceBody(caller: address, a: Announcement): (s: seq<byte>)
  {
    Concat([Addr32(caller), RightAlign32(a.bindingSignature[..32]), RightAlign32(a.bindingSignature[32..]),
            RightAlign32(a.packetKey), WordUsize(160)])
    + DynTail(AddressText(a))
  }

  method EncodeKeyBindAnnounceBody(caller: address, a: Announcement) returns (out: seq<byte>)
    ensures out == KeyBindAnnounceBody(caller, a)
  {
    var offset := 5 * 32;
    var tail := AbiDynTail(AddressText(a));
    var words := [Addr32(caller), RightAlign32(a.bindingSignature[..32]),
                  RightAlign32(a.bindingSignature[32..]), RightAlign32(a.packetKey), WordUsize(offset)];
    out := AppendWords([], words);
    out := out + tail;
  }

  function AddressText(a: Announcement): (s: seq<byte>)
  {
    match a.multiaddress
    case None => []
    case Some(text) => text
  }

  function SendCall(recipient: address, amount: u256, data: seq<byte>): (s: seq<byte>)
  {
    CallWithBytes(SEND, [Addr32(recipient), Amount(amount)], data)
  }

  function AnnounceCall(me: address, announcements: address, a: Announcement, fee: u256): (s: seq<byte>)
  {
    SendCall(announcements, fee, KeyBindAnnounceBody(me, a))
  }

  function ServiceWrite(sel: selector, serviceType: word, node: address, metadata: seq<byte>): (s: seq<byte>)
  {
    CallWithBytes(sel, [serviceType, Addr32(node)], metadata)
  }

  /** The calls a paid registry write bundles: an approval of the burn, if any, and the write. */
  function RegistryCalls(token: address, registry: address, call: seq<byte>, burn: u256): (calls: seq<Call>)
  {
    (if burn != 0
     then [PlainCall(token, StaticCall(APPROVE, [Addr32(registry), Amount(burn)]))] else [])
    + [PlainCall(registry, call)]
  }

  function PaidServiceRegistryPayload(token: address, registry: address, call: seq<byte>, burn: u256): (s: seq<byte>)
  {
    ExecFromModule(SAFE_MULTI_SEND_ADDRESS, Zeros(32),
                   CallWithBytes(MULTI_SEND, [], EncodeCalls(RegistryCalls(token, registry, call, burn))), 1)
  }

  /** The body of the bundle is its one or two calls, one after the other. */
  lemma BundleBody(token: address, registry: address, call: seq<byte>, burn: u256)
    ensures EncodeCalls(RegistryCalls(token, registry, call, burn)) ==
            (if burn != 0 then EncodeOne(PlainCall(token, StaticCall(APPROVE, [Addr32(registry), Amount(burn)])))
             else [])
            + EncodeOne(PlainCall(registry, call))
  {
    hide EncodeOne, StaticCall, ToBE;
    var calls := RegistryCalls(token, registry, call, burn);
    var last := PlainCall(registry, call);
    assert [last][1..] == [] && EncodeCalls([last]) == EncodeOne(last) + [];
    assert burn != 0 ==> calls[1..] == [last];
  }

  method EncodePaidServiceRegistryPayload(token: address, registry: address, call: seq<byte>, burn: u256)
    returns (out: seq<byte>)
    ensures out == PaidServiceRegistryPayload(token, registry, call, burn)
  {
    hide EncodeOne, EncodeCalls, StaticCall, CallWithBytes, ExecFromModule, ToBE, RegistryCalls;
    var transactions := [];
    if burn != 0 {
      var approval := EncodeStaticCall(APPROVE, [Addr32(registry), Amount(burn)]);
      var one := EncodeMultiSendTransaction(token, approval);
      transactions := transactions + one;
    }
    var last := EncodeMultiSendTransaction(registry, call);
    transactions := transactions + last;
    BundleBody(token, registry, call, burn);
    assert transactions == EncodeCalls(RegistryCalls(token, registry, call, burn));
    var multiSend := EncodeCallWithBytes(MULTI_SEND, [], transactions);
    out := EncodeExecFromModuleWithOperation(SAFE_MULTI_SEND_ADDRESS, Zeros(32), multiSend, 1);
  }

  /** The 22 static words of `(RedeemableTicket, VRFParameters)`. */
  function RedeemWords(acked: AckedTicket): (r: Option<seq<word>>)
    ensures r.Some? ==> |r.value| == 22
  {
    match RedeemableTicketWords(acked.channelId, acked.ticket, acked.response)
    case Err(_) => None
    case Ok(words) => if acked.vrf.None? then None else Some(words + acked.vrf.value)
  }

  const CAPABILITY_PERMISSIONS: seq<byte> := [1, 1, 3, 3, 3, 3, 3, 3, 3, 3, 3, 3]

  function FunctionId(includeNode: bool): (w: word)
  {
    if includeNode then ToBE(0x0105b97dcdf19d454ebe36f91ed516c2b90ee79f4a46af96a0138c1f5403c1cc, 32)
    else ToBE(0xdd24c144db91d1bc600aac99393baf8f8c664ba461188f057e37f2c37b962b45, 32)
  }

  function AddressWords(a: seq<address>): (w: seq<word>)
    ensures |w| == |a|
  {
    if a == [] then [] else AddressWords(a[..|a| - 1]) + [Addr32(a[|a| - 1])]
  }

  /** The body of a `UserData` struct, without its outer offset word. */
  function UserDataBody(functionId: word, nonce: word, defaultTarget: word, admins: seq<address>): (s: seq<byte>)
  {
    Concat([functionId, nonce, defaultTarget, WordUsize(128), WordUsize(|admins|)]) + Concat(AddressWords(admins))
  }

  /** The `UserData` a new Safe is deployed with. */
  function UserData(channels: address, admins: seq<address>, includeNode: bool, nonce: word): (s: seq<byte>)
  {
    UserDataBody(FunctionId(includeNode), nonce, channels + CAPABILITY_PERMISSIONS, admins)
  }

  method EncodeUserDataBody(functionId: word, nonce: word, defaultTarget: word, admins: seq<address>)
    returns (out: seq<byte>)
    ensures out == UserDataBody(functionId, nonce, defaultTarget, admins)
  {
    var offset := 4 * 32;
    out := AppendWords([], [functionId, nonce, defaultTarget, WordUsize(offset), WordUsize(|admins|)]);
    out := AppendAddresses(out, admins);
  }

  method AppendAddresses(head: seq<byte>, admins: seq<address>) returns (out: seq<byte>)
    ensures out == head + Concat(AddressWords(admins))
  {
    out := head;
    for i := 0 to |admins|
      invariant out == head + Concat(AddressWords(admins[..i]))
    {
      assert admins[..i + 1][..i] == admins[..i];
      ConcatAppend(AddressWords(admins[..i]), Addr32(admins[i]));
      out := out + Addr32(admins[i]);
    }
    assert admins[..|admins|] == admins;
  }

  /** The dynamic `address[]` whose offset stands in head slot `i`. */
  function AddressListOf(body: seq<byte>, i: nat): (list: Option<seq<address>>)
    requires 32 * (i + 1) <= |body|
  {
    var offset := FromBE(Slot(body, i));
    if |body| < offset + 32 then None
    else
      var len := FromBE(body[offset..offset + 32]);
      var elements := body[offset + 32..];
      if |elements| < 32 * len then None
      else Some(seq(len, k requires 0 <= k < len && 32 * len <= |elements| => AddressOf(Slot(elements, k))))
  }

  lemma {:induction false} AddressWordAt(a: seq<address>, k: nat)
    requires k < |a|
    ensures AddressWords(a)[k] == Addr32(a[k])
  {
    if k < |a| - 1 {
      AddressWordAt(a[..|a| - 1], k);
    }
  }

  /** The elements behind the length word are the addresses, one by one. */
  lemma ElementsRead(admins: seq<address>, k: nat)
    requires k < |admins|
    ensures AddressOf(Slot(Concat(AddressWords(admins)), k)) == admins[k]
  {
    hide Addr32;
    ConcatSlot(AddressWords(admins), [], k);
    assert Concat(AddressWords(admins)) + [] == Concat(AddressWords(admins));
    AddressWordAt(admins, k);
    AddressRoundTrip(admins[k]);
  }

  /** An ABI reader finds identifier, nonce, target and exactly the list of admins, in order, behind the offset 128. */
  lemma UserDataReadBack(functionId: word, nonce: word, defaultTarget: word, admins: seq<address>)
    requires |admins| < Pow256(8)
    ensures var body := UserDataBody(functionId, nonce, defaultTarget, admins);
            && |body| >= 128 && Slot(body, 0) == functionId && Slot(body, 1) == nonce && Slot(body, 2) == defaultTarget
            && FromBE(Slot(body, 3)) == 128 && AddressListOf(body, 3) == Some(admins)
  {
    hide WordUsize, Addr32, AddressWords, Pow256, FromBE;
    var words := [functionId, nonce, defaultTarget, WordUsize(128), WordUsize(|admins|)];
    var elements := Concat(AddressWords(admins));
    var body := UserDataBody(functionId, nonce, defaultTarget, admins);
    forall i | 0 <= i < 5 ensures Slot(body, i) == words[i] {
      ConcatSlot(words, elements, i);
    }
    Widths();
    WordUsizeValue(128);
    WordUsizeValue(|admins|);
    assert body[128..160] == Slot(body, 4);
    assert body[160..] == elements;
    forall k | 0 <= k < |admins| ensures AddressOf(Slot(elements, k)) == admins[k] {
      ElementsRead(admins, k);
    }
    assert AddressListOf(body, 3).value == admins;
  }

  // ----- the generators

  function Request(to: address, input: seq<byte>): (r: Result<TransactionRequest, PayloadError>)
  {
    Ok(TransactionRequest(Some(to), input, ZERO_WORD, None))
  }

  function BasicGenerate(me: address, addrs: ContractAddresses, a: Action)
    : (r: Result<TransactionRequest, PayloadError>)
  {
    match a
    case Approve(spender, amount) =>
      Request(addrs.token, StaticCall(APPROVE, [Addr32(spender), Amount(amount)]))
    case Transfer(currency, destination, amount) =>
      (match currency
       case XDai => Ok(TransactionRequest(Some(destination), [], Amount(amount), None))
       case WxHOPR => Request(addrs.token, StaticCall(TRANSFER, [Addr32(destination), Amount(amount)]))
       case XHOPR => Err(InvalidArguments))
    case SendErc777(recipient, amount, payload) =>
      Request(addrs.token, SendCall(recipient, amount, Erc777Data(payload)))
    case Announce(announcement, fee) =>
      Request(addrs.token, AnnounceCall(me, addrs.announcements, announcement, fee))
    case FundChannel(destination, amount) =>
      if destination == me then Err(InvalidArguments)
      else Request(addrs.channels,
                   StaticCall(FUND_CHANNEL, [Addr32(destination), TruncatedWord(Amount(amount), 12)]))
    case CloseIncomingChannel(source) =>
      if source == me then Err(InvalidArguments)
      else Request(addrs.channels, StaticCall(CLOSE_INCOMING_CHANNEL, [Addr32(source)]))
    case InitiateChannelClosure(destination) =>
      if destination == me then Err(InvalidArguments)
      else Request(addrs.channels, StaticCall(INITIATE_OUTGOING_CHANNEL_CLOSURE, [Addr32(destination)]))
    case FinalizeChannelClosure(destination) =>
      if destination == me then Err(InvalidArguments)
      else Request(addrs.channels, StaticCall(FINALIZE_OUTGOING_CHANNEL_CLOSURE, [Addr32(destination)]))
    case RedeemTicket(acked) =>
      (match RedeemWords(acked)
       case None => Err(InvalidArguments)
       case Some(words) => Request(addrs.channels, StaticCall(REDEEM_TICKET, words)))
    case RegisterSafe(safe) =>
      Request(addrs.nodeSafeRegistry, StaticCall(REGISTER_SAFE_BY_NODE, [Addr32(safe)]))
    case DeregisterNode => Err(InvalidState)
    case RegisterService(serviceType, metadata, burn) =>
      if burn != 0 then Err(InvalidState)
      else Request(addrs.serviceRegistry, ServiceWrite(SELF_REGISTER, serviceType, me, metadata))
    case UpdateService(serviceType, metadata, burn) =>
      if burn != 0 then Err(InvalidState)
      else Request(addrs.serviceRegistry, ServiceWrite(SELF_UPDATE, serviceType, me, metadata))
    case DeregisterService(serviceType) =>
      Request(addrs.serviceRegistry, StaticCall(SELF_DEREGISTER, [serviceType, Addr32(me)]))
    case DeploySafe(balance, admins, includeNode, nonce) =>
      Request(addrs.token, SendCall(addrs.nodeStakeFactory, balance,
                                    UserData(addrs.channels, admins, includeNode, nonce)))
  }

  /** A request of the Safe generator always carries the default gas limit. */
  function WithGas(to: address, input: seq<byte>): (r: Result<TransactionRequest, PayloadError>)
  {
    Ok(TransactionRequest(Some(to), input, ZERO_WORD, Some(DEFAULT_TX_GAS)))
  }

  function SafeGenerate(me: address, addrs: ContractAddresses, safeModule: address, a: Action)
    : (r: Result<TransactionRequest, PayloadError>)
  {
    match a
    case Approve(spender, amount) =>
      ModuleExec(safeModule, addrs.token, StaticCall(APPROVE, [Addr32(spender), Amount(amount)]))
    case Transfer(currency, destination, amount) =>
      (match currency
       case XDai => WithGas(safeModule, ExecFromModule(destination, Amount(amount), [], 0))
       case WxHOPR => ModuleExec(safeModule, addrs.token, StaticCall(TRANSFER, [Addr32(destination), Amount(amount)]))
       case XHOPR => Err(InvalidArguments))
    case SendErc777(recipient, amount, payload) =>
      ModuleExec(safeModule, addrs.token, SendCall(recipient, amount, Erc777Data(payload)))
    case Announce(announcement, fee) =>
      ModuleExec(safeModule, addrs.token, AnnounceCall(me, addrs.announcements, announcement, fee))
    case FundChannel(destination, amount) =>
      if destination == me || amount > MAX_FUNDING_AMOUNT then Err(InvalidArguments)
      else ModuleExec(safeModule, addrs.channels,
                      StaticCall(FUND_CHANNEL_SAFE,
                                 [Addr32(me), Addr32(destination), TruncatedWord(Amount(amount), 12)]))
    case CloseIncomingChannel(source) =>
      if source == me then Err(InvalidArguments)
      else ModuleExec(safeModule, addrs.channels,
                      StaticCall(CLOSE_INCOMING_CHANNEL_SAFE, [Addr32(me), Addr32(source)]))
    case InitiateChannelClosure(destination) =>
      if destination == me then Err(InvalidArguments)
      else ModuleExec(safeModule, addrs.channels,
                      StaticCall(INITIATE_OUTGOING_CHANNEL_CLOSURE_SAFE, [Addr32(me), Addr32(destination)]))
    case FinalizeChannelClosure(destination) =>
      if destination == me then Err(InvalidArguments)
      else ModuleExec(safeModule, addrs.channels,
                      StaticCall(FINALIZE_OUTGOING_CHANNEL_CLOSURE_SAFE, [Addr32(me), Addr32(destination)]))
    case RedeemTicket(acked) =>
      (match RedeemWords(acked)
       case None => Err(InvalidArguments)
       case Some(words) =>
         ModuleExec(safeModule, addrs.channels, StaticCall(REDEEM_TICKET_SAFE, [Addr32(me)] + words)))
    case RegisterSafe(safe) =>
      WithGas(addrs.nodeSafeRegistry, StaticCall(REGISTER_SAFE_BY_NODE, [Addr32(safe)]))
    case DeregisterNode =>
      WithGas(safeModule, StaticCall(DEREGISTER_NODE_BY_SAFE, [Addr32(me)]))
    case RegisterService(serviceType, metadata, burn) =>
      WithGas(safeModule,
              PaidServiceRegistryPayload(addrs.token, addrs.serviceRegistry,
                                         ServiceWrite(SELF_REGISTER, serviceType, me, metadata), burn))
    case UpdateService(serviceType, metadata, burn) =>
      WithGas(safeModule,
              PaidServiceRegistryPayload(addrs.token, addrs.serviceRegistry,
                                         ServiceWrite(SELF_UPDATE, serviceType, me, metadata), burn))
    case DeregisterService(serviceType) =>
      ModuleExec(safeModule, addrs.serviceRegistry,
                 StaticCall(SELF_DEREGISTER, [serviceType, Addr32(me)]))
    case DeploySafe(_, _, _, _) => Err(InvalidState)
  }

  /** Wraps call data in an `execTransactionFromModule` call that moves no value. */
  function ModuleExec(safeModule: address, to: address, callData: seq<byte>)
    : (r: Result<TransactionRequest, PayloadError>)
  {
    WithGas(safeModule, ExecFromModule(to, ZERO_WORD, callData, 0))
  }

  function Generate(g: Generator, a: Action): (r: Result<TransactionRequest, PayloadError>)
  {
    match g
    case Basic(me, addrs) => BasicGenerate(me, addrs, a)
    case Safe(me, addrs, safeModule) => SafeGenerate(me, addrs, safeModule, a)
  }

  // ----- what a module call and a registry bundle execute

  /** What the Safe module executes for an `execTransactionFromModule` call. */
  datatype ModuleCall = ModuleCall(to: address, value: nat, data: seq<byte>, operation: nat)

  function DecodeExec(input: seq<byte>): (r: Option<ModuleCall>)
  {
    match Args(EXEC_TRANSACTION_FROM_MODULE, input)
    case None => None
    case Some(args) =>
      if |args| < 128 then None
      else
        match BytesOf(args, 2)
        case None => None
        case Some(data) =>
          Some(ModuleCall(AddressOf(Slot(args, 0)), FromBE(Slot(args, 1)), data, UintOf(Slot(args, 3), 1)))
  }

  /** The argument block of a module call: its four slots and its bytes. */
  lemma ExecSlots(to: address, value: word, callData: seq<byte>, operation: byte) returns (args: seq<byte>)
    requires |callData| < Pow256(8)
    ensures |args| >= 128
    ensures Args(EXEC_TRANSACTION_FROM_MODULE, ExecFromModule(to, value, callData, operation)) == Some(args)
    ensures Slot(args, 0) == Addr32(to) && Slot(args, 1) == value && Slot(args, 3) == RightAlign32([operation])
    ensures BytesOf(args, 2) == Some(callData)
  {
    var words := [Addr32(to), value, WordUsize(128), RightAlign32([operation])];
    var head := Concat(words);
    args := head + DynTail(callData);
    assert ExecFromModule(to, value, callData, operation)[4..] == args;
    hide DynTail, BytesOf, WordUsize, Addr32, RightAlign32, ExecFromModule;
    forall i | 0 <= i < 4 ensures Slot(args, i) == words[i] && Slot(head, i) == words[i] {
      ConcatSlot(words, DynTail(callData), i);
      ConcatSlot(words, [], i);
      assert head + [] == head;
    }
    Widths();
    DynTailRead(head, 2, callData, []);
    assert args == head + (DynTail(callData) + []);
  }

  /** The call data of a module call is read back whole, whatever its length. */
  lemma ExecRoundTrip(to: address, value: word, callData: seq<byte>, operation: byte)
    requires |callData| < Pow256(8)
    ensures DecodeExec(ExecFromModule(to, value, callData, operation))
            == Some(ModuleCall(to, FromBE(value), callData, operation))
  {
    var args := ExecSlots(to, value, callData, operation);
    hide ExecFromModule, Args, Slot, BytesOf;
    AddressRoundTrip(to);
    RightAlignPads([operation]);
    assert [operation][..0] == [];
    assert FromBE([operation]) == operation;
  }

  /** The calls MultiSend makes for its call data. */
  function BundleOf(data: seq<byte>): (calls: Option<seq<Call>>)
  {
    match Args(MULTI_SEND, data)
    case None => None
    case Some(args) =>
      if |args| < 32 then None
      else
        match BytesOf(args, 0)
        case None => None
        case Some(body) => DecodeCalls(body)
  }

  /** The calls executed by a registry write of the Safe generator, read back from its payload. */
  function DecodeBundle(input: seq<byte>): (calls: Option<seq<Call>>)
  {
    match DecodeExec(input)
    case None => None
    case Some(exec) =>
      if exec.to != SAFE_MULTI_SEND_ADDRESS || exec.value != 0 || exec.operation != 1 then None
      else BundleOf(exec.data)
  }

  lemma LongerWrapped(to: address, value: word, words: seq<word>, body: seq<byte>, operation: byte)
    ensures |body| <= |CallWithBytes(MULTI_SEND, words, body)|
         <= |ExecFromModule(to, value, CallWithBytes(MULTI_SEND, words, body), operation)|
  {
    hide Concat, WordUsize;
  }

  lemma BundleRead(calls: seq<Call>)
    requires |EncodeCalls(calls)| < Pow256(8)
    ensures BundleOf(CallWithBytes(MULTI_SEND, [], EncodeCalls(calls))) == Some(calls)
  {
    hide CallWithBytes, EncodeCalls, DecodeCalls, BytesOf, FromBE, Pow256;
    Widths();
    CallWithBytesArgs(MULTI_SEND, [], EncodeCalls(calls));
    DecodeEncodeCalls(calls);
  }

  lemma BundleDecoded(token: address, registry: address, call: seq<byte>, burn: u256)
    requires |PaidServiceRegistryPayload(token, registry, call, burn)| < Pow256(8)
    ensures DecodeBundle(PaidServiceRegistryPayload(token, registry, call, burn))
            == Some(RegistryCalls(token, registry, call, burn))
  {
    hide ExecFromModule, DecodeExec, CallWithBytes, EncodeCalls, BundleOf, RegistryCalls, FromBE, Pow256;
    var calls := RegistryCalls(token, registry, call, burn);
    var body := EncodeCalls(calls);
    LongerWrapped(SAFE_MULTI_SEND_ADDRESS, Zeros(32), [], body, 1);
    ExecRoundTrip(SAFE_MULTI_SEND_ADDRESS, Zeros(32), CallWithBytes(MULTI_SEND, [], body), 1);
    FromBEZeros(32);
    BundleRead(calls);
  }

  /** A plain call of the token that an ABI reader reads as approve(spender, amount). */
  predicate IsApproval(c: Call, token: address, spender: address, amount: nat) {
    && c.operation == 0 && c.to == token && FromBE(c.value) == 0
    && match Args(APPROVE, c.data)
       case None => false
       case Some(args) => |args| == 64 && AddressOf(Slot(args, 0)) == spender && FromBE(Slot(args, 1)) == amount
  }

  lemma ApprovalBuilt(token: address, registry: address, burn: u256)
    ensures IsApproval(PlainCall(token, StaticCall(APPROVE, [Addr32(registry), Amount(burn)])), token, registry, burn)
  {
    hide Addr32, StaticCall, FromBE, ToBE;
    FromBEZeros(32);
    Widths();
    StaticCallArgs(APPROVE, [Addr32(registry), Amount(burn)]);
    AddressRoundTrip(registry);
    FromToBE(burn, 32);
  }

  /**
    A paid registry write is one delegate call of MultiSend. The last call it executes is the write:
    a plain call of the registry without native value. With a burn exactly one call comes before it,
    a plain call of the token that approves the burn for the registry.
   */
  lemma PaidServiceRegistryBundle(token: address, registry: address, call: seq<byte>, burn: u256)
    requires |PaidServiceRegistryPayload(token, registry, call, burn)| < Pow256(8)
    ensures match DecodeBundle(PaidServiceRegistryPayload(token, registry, call, burn))
            case None => false
            case Some(calls) =>
              && |calls| == (if burn > 0 then 2 else 1)
              && calls[|calls| - 1] == Call(0, registry, Zeros(32), call)
              && (burn > 0 ==> IsApproval(calls[0], token, registry, burn))
  {
    hide DecodeBundle, IsApproval, PaidServiceRegistryPayload;
    BundleDecoded(token, registry, call, burn);
    ApprovalBuilt(token, registry, burn);
  }
}
