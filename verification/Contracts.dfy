/**
  The calls the contracts of the network know, read from call data the way the contracts read them:
  dispatch over the selector, then one slot for each argument.
 */
module Contracts {
  import opened Abi
  import opened Bytes
  import opened Payload
  import opened Primitives
  import opened Wrappers

  /** A call as its contract understands it; calls made by a Safe name the node they are made for. */
  datatype Received =
    | Approves(spender: address, amount: nat)
    | Transfers(recipient: address, amount: nat)
    | Sends(recipient: address, amount: nat, data: seq<byte>)
    | Funds(node: Option<address>, account: address, amount: nat)
    | ClosesIncoming(node: Option<address>, source: address)
    | InitiatesClosure(node: Option<address>, destination: address)
    | FinalizesClosure(node: Option<address>, destination: address)
    | Redeems(node: Option<address>, words: seq<word>)
    | RegistersSafe(safe: address)
    | DeregistersNode(registered: address)
    | RegistersService(serviceType: word, provider: address, metadata: seq<byte>)
    | UpdatesService(serviceType: word, provider: address, metadata: seq<byte>)
    | DeregistersService(serviceType: word, provider: address)

  function ReadToken(data: seq<byte>): (r: Option<Received>)
  {
    if |data| < 68 then None
    else
      var (sel, args) := (data[..4], data[4..]);
      var (account, amount) := (AddressOf(Slot(args, 0)), FromBE(Slot(args, 1)));
      if sel == APPROVE then Some(Approves(account, amount))
      else if sel == TRANSFER then Some(Transfers(account, amount))
      else if sel != SEND || |args| < 96 then None
      else
        match BytesOf(args, 2)
        case None => None
        case Some(hook) => Some(Sends(account, amount, hook))
  }

  /** `n` slots from slot `i` on. */
  function Slots(args: seq<byte>, i: nat, n: nat): (w: seq<word>)
    requires 32 * (i + n) <= |args|
    ensures |w| == n && forall k :: 0 <= k < n ==> w[k] == Slot(args, i + k)
  {
    if n == 0 then [] else Slots(args, i, n - 1) + [Slot(args, i + n - 1)]
  }

  /** The functions for a Safe take the node first and the other arguments behind it. */
  function ReadChannels(bySafe: bool, data: seq<byte>): (r: Option<Received>)
  {
    var first := if bySafe then 1 else 0;
    if |data| < 4 + 32 * (first + 1) then None
    else
      var (sel, args) := (data[..4], data[4..]);
      var node := if bySafe then Some(AddressOf(Slot(args, 0))) else None;
      var account := AddressOf(Slot(args, first));
      if sel == if bySafe then CLOSE_INCOMING_CHANNEL_SAFE else CLOSE_INCOMING_CHANNEL then
        Some(ClosesIncoming(node, account))
      else if sel == if bySafe then INITIATE_OUTGOING_CHANNEL_CLOSURE_SAFE
                     else INITIATE_OUTGOING_CHANNEL_CLOSURE then
        Some(InitiatesClosure(node, account))
      else if sel == if bySafe then FINALIZE_OUTGOING_CHANNEL_CLOSURE_SAFE
                     else FINALIZE_OUTGOING_CHANNEL_CLOSURE then
        Some(FinalizesClosure(node, account))
      else if (sel == if bySafe then FUND_CHANNEL_SAFE else FUND_CHANNEL) && |args| >= 32 * (first + 2) then
        Some(Funds(node, account, UintOf(Slot(args, first + 1), 12)))
      else if (sel == if bySafe then REDEEM_TICKET_SAFE else REDEEM_TICKET) && |args| >= 32 * (first + 22) then
        Some(Redeems(node, Slots(args, first, 22)))
      else None
  }

  function ReadSafeRegistry(data: seq<byte>): (r: Option<Received>)
  {
    if |data| < 36 || data[..4] != REGISTER_SAFE_BY_NODE then None
    else Some(RegistersSafe(AddressOf(Slot(data[4..], 0))))
  }

  /** What the Safe module understands besides execution requests. */
  function ReadModule(data: seq<byte>): (r: Option<Received>)
  {
    if |data| < 36 || data[..4] != DEREGISTER_NODE_BY_SAFE then None
    else Some(DeregistersNode(AddressOf(Slot(data[4..], 0))))
  }

  function ReadServiceRegistry(data: seq<byte>): (r: Option<Received>)
  {
    if |data| < 68 then None
    else
      var (sel, args) := (data[..4], data[4..]);
      var (serviceType, provider) := (Slot(args, 0), AddressOf(Slot(args, 1)));
      if sel == SELF_DEREGISTER then Some(DeregistersService(serviceType, provider))
      else if sel !in {SELF_REGISTER, SELF_UPDATE} || |args| < 96 then None
      else
        match BytesOf(args, 2)
        case None => None
        case Some(metadata) =>
          Some(if sel == SELF_REGISTER then RegistersService(serviceType, provider, metadata)
               else UpdatesService(serviceType, provider, metadata))
  }

  // ----- what the receivers of an ERC-777 send find in its data

  /** The aggregator and the note of a shield. */
  predicate Shields(hook: seq<byte>, p: Erc777Payload) {
    && |hook| == 224
    && AddressOf(Slot(hook, 0)) == p.aggregator && FromBE(Slot(hook, 1)) == p.ownerHash
    && FromBE(Slot(hook, 2)) == p.token && FromBE(Slot(hook, 3)) == p.amount
    && FromBE(Slot(hook, 4)) == p.ephemeralX && FromBE(Slot(hook, 5)) == p.ephemeralY
    && FromBE(Slot(hook, 6)) == p.viewTag
  }

  /** The announcements contract binds a packet key, signed for, to the caller, and emits the text. */
  predicate Binds(hook: seq<byte>, caller: address, a: Announcement) {
    && |hook| >= 160
    && AddressOf(Slot(hook, 0)) == caller
    && Slot(hook, 1) == a.bindingSignature[..32] && Slot(hook, 2) == a.bindingSignature[32..]
    && Slot(hook, 3) == a.packetKey
    && BytesOf(hook, 4) == Some(if a.multiaddress.Some? then a.multiaddress.value else [])
  }

  /** The factory deploys for these admins, with the channels contract as the target nodes may call. */
  predicate Deploys(hook: seq<byte>, channels: address, admins: seq<address>, includeNode: bool, nonce: word) {
    && |hook| >= 128
    && FromBE(Slot(hook, 0)) == (if includeNode
                                 then 0x0105b97dcdf19d454ebe36f91ed516c2b90ee79f4a46af96a0138c1f5403c1cc
                                 else 0xdd24c144db91d1bc600aac99393baf8f8c664ba461188f057e37f2c37b962b45)
    && Slot(hook, 1) == nonce
    && Slot(hook, 2)[..20] == channels && Slot(hook, 2)[20..] == [1, 1, 3, 3, 3, 3, 3, 3, 3, 3, 3, 3]
    && AddressListOf(hook, 3) == Some(admins)
  }

  /** The words of a redemption: the ticket at its on-chain widths, its signature, the response and the proof. */
  ghost predicate CarriesTicket(w: seq<word>, acked: AckedTicket) {
    && |w| == 22 && acked.ticket.signature.Some? && acked.vrf.Some?
    && w[0] == acked.channelId
    && UintOf(w[1], 12) == acked.ticket.amount % Pow256(12)
    && UintOf(w[2], 6) == acked.ticket.index % Pow256(6)
    && UintOf(w[3], 3) == acked.ticket.channelEpoch % Pow256(3)
    && w[4][25..] == acked.ticket.encodedWinProb
    && w[5] == acked.ticket.signature.value[..32] && w[6] == acked.ticket.signature.value[32..]
    && w[7] == acked.response && w[8..] == acked.vrf.value
  }
}
