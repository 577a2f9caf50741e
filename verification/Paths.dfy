/** Validation of a route against the resolver of addresses and the channel graph. */
module Paths {
  import opened Primitives
  import opened Wrappers

  /** A hop or an origin, named by its chain address or by its packet key. */
  datatype NodeId = Chain(addr: address) | Offchain(key: packetkey)

  datatype ChannelStatus = Closed | Open | PendingToClose

  datatype PathError =
    | PathNotValid
    | InvalidPeer(peer: NodeId)
    | LoopsNotAllowed(addr: address)
    | MissingChannel(src: address, dst: address)
    | ChannelNotOpened(src: address, dst: address)
    | ResolverFailed(code: int)

  /** `PathAddressResolver`: every query may fail, and may find nothing. */
  datatype Resolver = Resolver(
    transport: address -> Result<Option<packetkey>, PathError>,
    chain: packetkey -> Result<Option<address>, PathError>,
    channel: (address, address) -> Result<Option<ChannelStatus>, PathError>)

  datatype ValidatedPath = ValidatedPath(keys: seq<packetkey>, addrs: seq<address>)

  /** The key and the address of a hop. */
  function Resolve(r: Resolver, hop: NodeId): (res: Result<(packetkey, address), PathError>)
  {
    match hop
    case Chain(addr) =>
      (match r.transport(addr)
       case Err(e) => Err(e)
       case Ok(None) => Err(InvalidPeer(hop))
       case Ok(Some(key)) => Ok((key, addr)))
    case Offchain(key) =>
      match r.chain(key)
      case Err(e) => Err(e)
      case Ok(None) => Err(InvalidPeer(hop))
      case Ok(Some(addr)) => Ok((key, addr))
  }

  /** The chain address of the origin; a chain address is taken as it is. */
  function OriginAddress(r: Resolver, origin: NodeId): (res: Result<address, PathError>)
  {
    match origin
    case Chain(addr) => Ok(addr)
    case Offchain(key) =>
      match r.chain(key)
      case Err(e) => Err(e)
      case Ok(None) => Err(InvalidPeer(origin))
      case Ok(Some(addr)) => Ok(addr)
  }

  predicate Resolves(r: Resolver, hop: NodeId) {
    Resolve(r, hop).Ok?
  }

  predicate AllResolve(r: Resolver, path: seq<NodeId>) {
    forall i :: 0 <= i < |path| ==> Resolves(r, path[i])
  }

  function Addresses(r: Resolver, path: seq<NodeId>): (addrs: seq<address>)
    requires AllResolve(r, path)
    ensures |addrs| == |path| && forall i :: 0 <= i < |path| ==> addrs[i] == Resolve(r, path[i]).value.1
  {
    seq(|path|, i requires 0 <= i < |path| => assert Resolves(r, path[i]); Resolve(r, path[i]).value.1)
  }

  function Keys(r: Resolver, path: seq<NodeId>): (keys: seq<packetkey>)
    requires AllResolve(r, path)
    ensures |keys| == |path| && forall i :: 0 <= i < |path| ==> keys[i] == Resolve(r, path[i]).value.0
  {
    seq(|path|, i requires 0 <= i < |path| => assert Resolves(r, path[i]); Resolve(r, path[i]).value.0)
  }

  // ----- what a valid path is

  predicate Distinct(addrs: seq<address>) {
    forall i, j :: 0 <= i < j < |addrs| ==> addrs[i] != addrs[j]
  }

  predicate IsOpen(r: Resolver, src: address, dst: address) {
    r.channel(src, dst) == Ok(Some(Open))
  }

  /** Who issues the ticket for hop `i`. */
  function Issuer(a0: address, addrs: seq<address>, i: nat): (a: address)
    requires i <= |addrs|
  {
    if i == 0 then a0 else addrs[i - 1]
  }

  /**
    A valid path: not empty, origin and hops resolve, no two hops have the same address, the origin
    is not the first hop, and every edge but the last has an open channel.
   */
  predicate Valid(r: Resolver, origin: NodeId, path: seq<NodeId>) {
    && path != [] && OriginAddress(r, origin).Ok? && AllResolve(r, path)
    && var a0, addrs := OriginAddress(r, origin).value, Addresses(r, path);
    && Distinct(addrs) && a0 != addrs[0]
    && forall i :: 0 <= i < |path| - 1 ==> IsOpen(r, Issuer(a0, addrs, i), addrs[i])
  }

  // ----- the checks in the order they are made

  /** What is wrong with a hop that resolves to `a`, behind hops with the given addresses. */
  function HopError(r: Resolver, a0: address, before: seq<address>, a: address, last: bool): (e: Option<PathError>)
  {
    var issuer := Issuer(a0, before, |before|);
    if issuer == a || a in before then Some(LoopsNotAllowed(a))
    else if last then None
    else
      match r.channel(issuer, a)
      case Err(e) => Some(e)
      case Ok(None) => Some(MissingChannel(issuer, a))
      case Ok(Some(status)) => if status == Open then None else Some(ChannelNotOpened(issuer, a))
  }

  /** Validates the rest of a path behind hops that passed; the first thing wrong decides the error. */
  function ValidateFrom(r: Resolver, a0: address, before: ValidatedPath, rest: seq<NodeId>)
    : (res: Result<ValidatedPath, PathError>)
    decreases |rest|
  {
    if rest == [] then Ok(before)
    else
      match Resolve(r, rest[0])
      case Err(e) => Err(e)
      case Ok((key, a)) =>
        match HopError(r, a0, before.addrs, a, |rest| == 1)
        case Some(e) => Err(e)
        case None => ValidateFrom(r, a0, ValidatedPath(before.keys + [key], before.addrs + [a]), rest[1..])
  }

  function Validate(r: Resolver, origin: NodeId, path: seq<NodeId>): (res: Result<ValidatedPath, PathError>)
  {
    if path == [] then Err(PathNotValid)
    else
      match OriginAddress(r, origin)
      case Err(e) => Err(e)
      case Ok(a0) => ValidateFrom(r, a0, ValidatedPath([], []), path)
  }

  /** `ValidatedPath::new`. */
  method New(r: Resolver, origin: NodeId, path: seq<NodeId>) returns (res: Result<ValidatedPath, PathError>)
    ensures res == Validate(r, origin, path)
  {
    if path == [] {
      return Err(PathNotValid);
    }
    var a0 := OriginAddress(r, origin);
    if a0.Err? {
      return Err(a0.error);
    }
    var ticketIssuer := a0.value;
    var keys: seq<packetkey> := [];
    var addrs: seq<address> := [];
    var seen: set<address> := {};
    for i := 0 to |path|
      invariant |addrs| == |keys| == i
      invariant ticketIssuer == Issuer(a0.value, addrs, i)
      invariant forall a :: a in seen <==> a in addrs
      invariant Validate(r, origin, path) == ValidateFrom(r, a0.value, ValidatedPath(keys, addrs), path[i..])
    {
      assert path[i..][0] == path[i] && path[i..][1..] == path[i + 1..];
      var resolved := Resolve(r, path[i]);
      if resolved.Err? {
        return Err(resolved.error);
      }
      var (key, ticketReceiver) := resolved.value;
      if ticketIssuer == ticketReceiver {
        return Err(LoopsNotAllowed(ticketReceiver));
      }
      if ticketReceiver in seen {
        return Err(LoopsNotAllowed(ticketReceiver));
      }
      if i < |path| - 1 {
        var channel := r.channel(ticketIssuer, ticketReceiver);
        if channel.Err? {
          return Err(channel.error);
        }
        if channel.value.None? {
          return Err(MissingChannel(ticketIssuer, ticketReceiver));
        }
        if channel.value.value != Open {
          return Err(ChannelNotOpened(ticketIssuer, ticketReceiver));
        }
      }
      keys, addrs := keys + [key], addrs + [ticketReceiver];
      seen := seen + {ticketReceiver};
      ticketIssuer := ticketReceiver;
    }
    return Ok(ValidatedPath(keys, addrs));
  }

  // ----- the checks accept exactly the valid paths

  /** What has to hold of the hops from index `n` on. */
  predicate TailValid(r: Resolver, a0: address, addrs: seq<address>, n: nat)
    requires n <= |addrs|
  {
    forall i :: n <= i < |addrs| ==>
      && addrs[i] != Issuer(a0, addrs, i) && addrs[i] !in addrs[..i]
      && (i < |addrs| - 1 ==> IsOpen(r, Issuer(a0, addrs, i), addrs[i]))
  }

  lemma TailStep(r: Resolver, a0: address, addrs: seq<address>, n: nat)
    requires n < |addrs|
    ensures TailValid(r, a0, addrs, n) <==>
            HopError(r, a0, addrs[..n], addrs[n], n == |addrs| - 1).None? && TailValid(r, a0, addrs, n + 1)
  {
    assert Issuer(a0, addrs[..n], n) == Issuer(a0, addrs, n);
  }

  lemma {:induction false} FromAccepts(r: Resolver, a0: address, path: seq<NodeId>, n: nat, before: ValidatedPath)
    requires n <= |path| && AllResolve(r, path)
    requires before == ValidatedPath(Keys(r, path)[..n], Addresses(r, path)[..n])
    ensures var res := ValidateFrom(r, a0, before, path[n..]);
            && (res.Ok? <==> TailValid(r, a0, Addresses(r, path), n))
            && (res.Ok? ==> res.value == ValidatedPath(Keys(r, path), Addresses(r, path)))
    decreases |path| - n
  {
    var keys, addrs := Keys(r, path), Addresses(r, path);
    if n < |path| {
      assert Resolves(r, path[n]);
      assert path[n..][0] == path[n] && path[n..][1..] == path[n + 1..];
      assert keys[..n + 1] == keys[..n] + [keys[n]] && addrs[..n + 1] == addrs[..n] + [addrs[n]];
      TailStep(r, a0, addrs, n);
      hide TailValid, HopError, Resolve;
      FromAccepts(r, a0, path, n + 1, ValidatedPath(keys[..n + 1], addrs[..n + 1]));
    } else {
      assert keys[..n] == keys && addrs[..n] == addrs;
    }
  }

  lemma {:induction false} UnresolvedRejected(r: Resolver, a0: address, before: ValidatedPath, rest: seq<NodeId>)
    requires ValidateFrom(r, a0, before, rest).Ok?
    ensures AllResolve(r, rest)
    decreases |rest|
  {
    if rest != [] {
      var (key, a) := Resolve(r, rest[0]).value;
      UnresolvedRejected(r, a0, ValidatedPath(before.keys + [key], before.addrs + [a]), rest[1..]);
      forall i | 0 <= i < |rest| ensures Resolves(r, rest[i]) {
        if i > 0 {
          assert rest[i] == rest[1..][i - 1];
        }
      }
    }
  }

  /**
    Validation succeeds exactly for the valid paths, and keys and addresses of the result are those
    of the hops, index by index.
   */
  lemma ValidateIffValid(r: Resolver, origin: NodeId, path: seq<NodeId>)
    ensures Validate(r, origin, path).Ok? <==> Valid(r, origin, path)
    ensures Validate(r, origin, path).Ok? ==>
              && AllResolve(r, path)
              && Validate(r, origin, path).value == ValidatedPath(Keys(r, path), Addresses(r, path))
  {
    if path != [] && OriginAddress(r, origin).Ok? {
      var a0 := OriginAddress(r, origin).value;
      assert path[0..] == path;
      if Validate(r, origin, path).Ok? {
        UnresolvedRejected(r, a0, ValidatedPath([], []), path);
      }
      if AllResolve(r, path) {
        var addrs := Addresses(r, path);
        assert Keys(r, path)[..0] == [] && addrs[..0] == [];
        FromAccepts(r, a0, path, 0, ValidatedPath([], []));
        TailIsWhole(r, a0, addrs);
      }
    }
  }

  lemma TailIsWhole(r: Resolver, a0: address, addrs: seq<address>)
    requires addrs != []
    ensures TailValid(r, a0, addrs, 0) <==>
            && Distinct(addrs) && a0 != addrs[0]
            && forall i :: 0 <= i < |addrs| - 1 ==> IsOpen(r, Issuer(a0, addrs, i), addrs[i])
  {
    if TailValid(r, a0, addrs, 0) {
      forall i, j | 0 <= i < j < |addrs| ensures addrs[i] != addrs[j] {
        assert addrs[i] == addrs[..j][i];
      }
    }
  }

  // ----- which error is reported

  /** The resolver fails for a hop with this error, or finds nothing. */
  predicate Unresolved(r: Resolver, hop: NodeId, e: PathError) {
    match hop
    case Chain(addr) => r.transport(addr) == Err(e) || (r.transport(addr) == Ok(None) && e == InvalidPeer(hop))
    case Offchain(key) => r.chain(key) == Err(e) || (r.chain(key) == Ok(None) && e == InvalidPeer(hop))
  }

  predicate NoOpenChannel(r: Resolver, src: address, dst: address, e: PathError) {
    || r.channel(src, dst) == Err(e)
    || (r.channel(src, dst) == Ok(None) && e == MissingChannel(src, dst))
    || (r.channel(src, dst) in {Ok(Some(Closed)), Ok(Some(PendingToClose))} && e == ChannelNotOpened(src, dst))
  }

  /** What is wrong with a hop behind hops with the given addresses. */
  predicate Wrong(r: Resolver, a0: address, addrs: seq<address>, hop: NodeId, last: bool, e: PathError) {
    || Unresolved(r, hop, e)
    || (Resolves(r, hop)
        && var (a, issuer) := (Resolve(r, hop).value.1, Issuer(a0, addrs, |addrs|));
        if a == issuer || a in addrs then e == LoopsNotAllowed(a) else !last && NoOpenChannel(r, issuer, a, e))
  }

  /** Hop `i` of `total` is not its issuer, not repeated, and unless it is the last its channel is open. */
  predicate HopOk(r: Resolver, a0: address, addrs: seq<address>, i: nat, total: nat)
    requires i < |addrs|
  {
    && addrs[i] != Issuer(a0, addrs, i) && addrs[i] !in addrs[..i]
    && (i < total - 1 ==> IsOpen(r, Issuer(a0, addrs, i), addrs[i]))
  }

  /** The first `n` hops pass all checks. */
  predicate Passes(r: Resolver, a0: address, path: seq<NodeId>, n: nat)
    requires n <= |path|
  {
    && AllResolve(r, path[..n])
    && forall i :: 0 <= i < n ==> HopOk(r, a0, Addresses(r, path[..n]), i, |path|)
  }

  /** The hops before `n` pass, and hop `n` does not, for this reason. */
  predicate FailsAt(r: Resolver, a0: address, path: seq<NodeId>, n: nat, e: PathError) {
    && n < |path| && Passes(r, a0, path, n)
    && Wrong(r, a0, Addresses(r, path[..n]), path[n], n == |path| - 1, e)
  }

  /** The checks of one hop find exactly what is wrong with it. */
  lemma HopChecked(r: Resolver, a0: address, addrs: seq<address>, hop: NodeId, last: bool, e: PathError)
    ensures Wrong(r, a0, addrs, hop, last, e) <==>
            match Resolve(r, hop)
            case Err(f) => e == f
            case Ok((_, a)) => HopError(r, a0, addrs, a, last) == Some(e)
  {}

  lemma HopOkBefore(r: Resolver, a0: address, addrs: seq<address>, n: nat, i: nat, total: nat)
    requires i < n <= |addrs|
    ensures HopOk(r, a0, addrs[..n], i, total) <==> HopOk(r, a0, addrs, i, total)
  {
    assert addrs[..n][..i] == addrs[..i];
  }

  lemma HopOkLast(r: Resolver, a0: address, addrs: seq<address>, a: address, total: nat)
    requires |addrs| < total
    ensures HopOk(r, a0, addrs + [a], |addrs|, total) <==> HopError(r, a0, addrs, a, |addrs| == total - 1).None?
  {
    assert (addrs + [a])[..|addrs|] == addrs;
  }

  lemma NextAddresses(r: Resolver, path: seq<NodeId>, n: nat)
    requires n < |path| && AllResolve(r, path[..n])
    ensures AllResolve(r, path[..n + 1]) <==> Resolves(r, path[n])
    ensures Resolves(r, path[n]) ==>
              Addresses(r, path[..n + 1]) == Addresses(r, path[..n]) + [Resolve(r, path[n]).value.1]
  {
    assert path[..n + 1] == path[..n] + [path[n]];
    if AllResolve(r, path[..n + 1]) {
      assert Resolves(r, path[..n + 1][n]);
    }
    if Resolves(r, path[n]) {
      var longer := path[..n + 1];
      forall i | 0 <= i < |longer| ensures Resolves(r, longer[i]) {
        assert i < n ==> longer[i] == path[..n][i];
      }
    }
  }

  lemma HopPassed(r: Resolver, a0: address, path: seq<NodeId>, n: nat)
    requires n < |path| && Passes(r, a0, path, n)
    ensures Passes(r, a0, path, n + 1) <==>
            && Resolves(r, path[n])
            && HopError(r, a0, Addresses(r, path[..n]), Resolve(r, path[n]).value.1, n == |path| - 1).None?
  {
    NextAddresses(r, path, n);
    hide HopOk, HopError, AllResolve;
    if Resolves(r, path[n]) {
      var before, addrs := Addresses(r, path[..n]), Addresses(r, path[..n + 1]);
      hide Addresses, Resolve;
      assert addrs[..n] == before;
      forall i | 0 <= i < n ensures HopOk(r, a0, addrs, i, |path|) {
        HopOkBefore(r, a0, addrs, n, i, |path|);
      }
      HopOkLast(r, a0, before, addrs[n], |path|);
    }
  }

  lemma PassesFewer(r: Resolver, a0: address, path: seq<NodeId>, n: nat, m: nat)
    requires n <= m <= |path| && Passes(r, a0, path, m)
    ensures Passes(r, a0, path, n)
  {
    forall i | 0 <= i < n ensures Resolves(r, path[..n][i]) {
      assert Resolves(r, path[..m][i]);
    }
    var addrs := Addresses(r, path[..m]);
    assert Addresses(r, path[..n]) == addrs[..n];
    hide Addresses, Resolve, HopOk;
    forall i | 0 <= i < n ensures HopOk(r, a0, addrs[..n], i, |path|) {
      HopOkBefore(r, a0, addrs, n, i, |path|);
    }
  }

  lemma {:induction false} FromFails(r: Resolver, a0: address, path: seq<NodeId>, n: nat, keys: seq<packetkey>,
                                     e: PathError)
    requires n <= |path| && Passes(r, a0, path, n)
    ensures ValidateFrom(r, a0, ValidatedPath(keys, Addresses(r, path[..n])), path[n..]) == Err(e) <==>
            exists m :: n <= m < |path| && FailsAt(r, a0, path, m, e)
    decreases |path| - n
  {
    if n < |path| {
      var addrs := Addresses(r, path[..n]);
      assert path[n..][0] == path[n] && path[n..][1..] == path[n + 1..];
      HopChecked(r, a0, addrs, path[n], n == |path| - 1, e);
      HopPassed(r, a0, path, n);
      if Passes(r, a0, path, n + 1) {
        var (key, a) := Resolve(r, path[n]).value;
        NextAddresses(r, path, n);
        hide HopError, Wrong, Resolve, Passes, Addresses;
        FromFails(r, a0, path, n + 1, keys + [key], e);
        assert FailsAt(r, a0, path, n, e) ==> false;
      } else {
        forall m | n < m < |path| ensures !FailsAt(r, a0, path, m, e) {
          if Passes(r, a0, path, m) {
            PassesFewer(r, a0, path, n + 1, m);
          }
        }
        hide HopError, Wrong, Passes, Addresses;
        assert FailsAt(r, a0, path, n, e) <==> Wrong(r, a0, addrs, path[n], n == |path| - 1, e);
      }
    }
  }

  /** The origin has no address. */
  predicate OriginUnresolved(r: Resolver, origin: NodeId, e: PathError) {
    origin.Offchain? && (r.chain(origin.key) == Err(e) || (r.chain(origin.key) == Ok(None) && e == InvalidPeer(origin)))
  }

  /** An origin named by its packet key is the origin with its address. */
  function OriginOf(r: Resolver, origin: NodeId): (a0: Option<address>) {
    match origin
    case Chain(addr) => Some(addr)
    case Offchain(key) => if r.chain(key).Ok? then r.chain(key).value else None
  }

  /**
    The error is that of the first thing that is wrong: an empty path, an origin without an address,
    or the first hop that does not pass, and says what is wrong there.
   */
  lemma FirstErrorDecides(r: Resolver, origin: NodeId, path: seq<NodeId>, e: PathError)
    ensures Validate(r, origin, path) == Err(e) <==>
            || (path == [] && e == PathNotValid)
            || (path != [] && OriginUnresolved(r, origin, e))
            || (path != [] && OriginOf(r, origin).Some?
                && exists n :: 0 <= n < |path| && FailsAt(r, OriginOf(r, origin).value, path, n, e))
  {
    hide ValidateFrom, FailsAt;
    if path != [] && OriginAddress(r, origin).Ok? {
      var a0 := OriginAddress(r, origin).value;
      assert path[0..] == path && Addresses(r, path[..0]) == [];
      assert OriginOf(r, origin) == Some(a0) && !OriginUnresolved(r, origin, e);
      FromFails(r, a0, path, 0, [], e);
      assert Validate(r, origin, path) == ValidateFrom(r, a0, ValidatedPath([], []), path);
    } else if path != [] {
      assert OriginOf(r, origin).None?;
      assert OriginUnresolved(r, origin, e) <==> OriginAddress(r, origin) == Err(e);
    }
  }

  // ----- validating the result again

  /** Keys and addresses name each other. */
  ghost predicate Consistent(r: Resolver) {
    forall key: packetkey, addr: address :: r.transport(addr) == Ok(Some(key)) <==> r.chain(key) == Ok(Some(addr))
  }

  function AsKeys(keys: seq<packetkey>): (path: seq<NodeId>)
    ensures |path| == |keys| && forall i :: 0 <= i < |keys| ==> path[i] == Offchain(keys[i])
  {
    seq(|keys|, i requires 0 <= i < |keys| => Offchain(keys[i]))
  }

  function AsAddresses(addrs: seq<address>): (path: seq<NodeId>)
    ensures |path| == |addrs| && forall i :: 0 <= i < |addrs| ==> path[i] == Chain(addrs[i])
  {
    seq(|addrs|, i requires 0 <= i < |addrs| => Chain(addrs[i]))
  }

  /** Two paths whose hops resolve alike are validated alike. */
  lemma SameResolution(r: Resolver, origin: NodeId, path: seq<NodeId>, other: seq<NodeId>)
    requires |path| == |other| && Validate(r, origin, path).Ok?
    requires AllResolve(r, path)
    requires forall i :: 0 <= i < |path| ==> Resolve(r, other[i]) == Resolve(r, path[i])
    ensures Validate(r, origin, other) == Validate(r, origin, path)
  {
    ValidateIffValid(r, origin, path);
    ValidateIffValid(r, origin, other);
    forall i | 0 <= i < |path| ensures Resolves(r, other[i]) {
      assert Resolves(r, path[i]);
    }
    assert Addresses(r, other) == Addresses(r, path) && Keys(r, other) == Keys(r, path);
  }

  lemma ResolveBack(r: Resolver, hop: NodeId)
    requires Consistent(r) && Resolve(r, hop).Ok?
    ensures var (key, addr) := Resolve(r, hop).value;
            Resolve(r, Offchain(key)) == Resolve(r, Chain(addr)) == Resolve(r, hop)
  {}

  /** With a consistent resolver the result validates to itself, read as keys or as addresses. */
  lemma Revalidate(r: Resolver, origin: NodeId, path: seq<NodeId>)
    requires Consistent(r) && Validate(r, origin, path).Ok?
    ensures var v := Validate(r, origin, path).value;
            Validate(r, origin, AsKeys(v.keys)) == Validate(r, origin, AsAddresses(v.addrs)) == Ok(v)
  {
    ValidateIffValid(r, origin, path);
    var v := Validate(r, origin, path).value;
    hide Validate, Resolve, Consistent;
    forall i | 0 <= i < |path|
      ensures Resolve(r, AsKeys(v.keys)[i]) == Resolve(r, AsAddresses(v.addrs)[i]) == Resolve(r, path[i])
    {
      assert Resolves(r, path[i]);
      ResolveBack(r, path[i]);
    }
    SameResolution(r, origin, path, AsKeys(v.keys));
    SameResolution(r, origin, path, AsAddresses(v.addrs));
  }

  /** The origin may be reached again: only the first hop is compared with it, and the last edge needs no channel. */
  lemma OriginMayReturn(r: Resolver, a: address, b: address)
    requires Resolves(r, Chain(a)) && Resolves(r, Chain(b)) && a != b && IsOpen(r, a, b)
    ensures Validate(r, Chain(a), [Chain(b), Chain(a)]).Ok?
  {
    ValidateIffValid(r, Chain(a), [Chain(b), Chain(a)]);
  }

  // ----- cycles

  function Entries(hops: seq<NodeId>): (entries: set<NodeId>) {
    set h | h in hops
  }

  /** Fewer different entries than hops. */
  predicate ContainsCycle(hops: seq<NodeId>) {
    |Entries(hops)| != |hops|
  }

  predicate Repeats(hops: seq<NodeId>) {
    exists i, j :: 0 <= i < j < |hops| && hops[i] == hops[j]
  }

  lemma Appended(front: seq<NodeId>, last: NodeId)
    ensures Entries(front + [last]) == Entries(front) + {last}
    ensures Repeats(front + [last]) <==> Repeats(front) || last in front
  {
    var hops := front + [last];
    if Repeats(front) {
      var i, j :| 0 <= i < j < |front| && front[i] == front[j];
      assert hops[i] == hops[j];
    }
    if last in front {
      var i :| 0 <= i < |front| && front[i] == last;
      assert hops[i] == hops[|front|];
    }
  }

  lemma {:induction false} CountEntries(hops: seq<NodeId>)
    ensures |Entries(hops)| <= |hops|
    ensures |Entries(hops)| == |hops| <==> !Repeats(hops)
  {
    if hops == [] {
      assert Entries(hops) == {};
    } else {
      var front, last := hops[..|hops| - 1], hops[|hops| - 1];
      assert hops == front + [last];
      CountEntries(front);
      Appended(front, last);
      assert last in front <==> last in Entries(front);
      hide Entries, Repeats;
      assert last in front ==> Entries(hops) == Entries(front);
    }
  }

  /** A path has a cycle exactly when some entry occurs twice. */
  lemma CycleIsRepetition(hops: seq<NodeId>)
    ensures ContainsCycle(hops) <==> exists i, j :: 0 <= i < j < |hops| && hops[i] == hops[j]
  {
    CountEntries(hops);
  }

  /** The addresses of a validated path form no cycle. */
  lemma ValidatedHasNoCycle(r: Resolver, origin: NodeId, path: seq<NodeId>)
    requires Validate(r, origin, path).Ok?
    ensures !ContainsCycle(AsAddresses(Validate(r, origin, path).value.addrs))
  {
    ValidateIffValid(r, origin, path);
    CycleIsRepetition(AsAddresses(Validate(r, origin, path).value.addrs));
  }
}
