/** The connection gate of the gossip swarm and the dial flow through it. */
module Gater {
  import opened Prelude

  type PeerId = nat
  /** A reading of the monotone clock, and a span of it. */
  type Instant = nat
  type Duration = nat

  datatype Ip = V4(bits: nat) | V6(bits: nat)

  datatype Component = Ip4(addr: nat) | Ip6(addr: nat) | Tcp(port: u16) | P2p(peer: PeerId) | Other(code: nat)

  type Multiaddr = seq<Component>

  /** An address prefix of `prefix` leading bits. */
  datatype Subnet = Subnet(base: Ip, prefix: nat)

  datatype Connectedness = NotConnected | Connected | CanConnect | CannotConnect | Limited

  datatype DialInfo = DialInfo(numDials: nat, lastDial: Instant)

  datatype Config = Config(peerRedialing: Option<u64>, dialPeriod: Duration)

  datatype DialError =
    | InvalidMultiaddr(addr: Multiaddr)
    | AlreadyDialing(peer: PeerId)
    | ThresholdReached(addr: Multiaddr)
    | PeerBlocked(peer: PeerId)
    | InvalidIpAddress(addr: Multiaddr)
    | AddressBlocked(ip: Ip)
    | SubnetBlocked(ip: Ip)

  datatype Gate = Gate(
    config: Config,
    currentDials: set<PeerId>,
    dialedPeers: map<Multiaddr, DialInfo>,
    connectedness: map<PeerId, Connectedness>,
    protectedPeers: set<PeerId>,
    blockedPeers: set<PeerId>,
    blockedAddrs: set<Ip>,
    blockedSubnets: set<Subnet>)

  function NewGate(config: Config): Gate {
    Gate(config, {}, map[], map[], {}, {}, {}, {})
  }

  // ---------------------------------------------------------------------------------------------
  // Addresses

  function PeerOf(addr: Multiaddr): Option<PeerId> {
    if addr == [] then None
    else if addr[0].P2p? then Some(addr[0].peer)
    else PeerOf(addr[1..])
  }

  function IpOf(addr: Multiaddr): Option<Ip> {
    if addr == [] then None
    else
      match addr[0]
      case Ip4(a) => Some(V4(a))
      case Ip6(a) => Some(V6(a))
      case _ => IpOf(addr[1..])
  }

  function Pow2(n: nat): (p: nat)
    ensures p > 0
  {
    if n == 0 then 1 else 2 * Pow2(n - 1)
  }

  function Width(ip: Ip): nat {
    if ip.V4? then 32 else 128
  }

  /** How many addresses a prefix of that length spans. */
  function Span(net: Subnet): (n: nat)
    ensures n > 0
  {
    if net.prefix <= Width(net.base) then Pow2(Width(net.base) - net.prefix) else 1
  }

  /** The address shares the leading bits of the prefix. */
  predicate Contains(net: Subnet, ip: Ip) {
    net.base.V4? == ip.V4? && ip.bits / Span(net) == net.base.bits / Span(net)
  }

  // ---------------------------------------------------------------------------------------------
  // The gate

  function Elapsed(since: Instant, now: Instant): Duration {
    if now < since then 0 else now - since
  }

  predicate DialThresholdReached(g: Gate, addr: Multiaddr) {
    addr in g.dialedPeers
    && match g.config.peerRedialing
       case None => true
       case Some(n) => n != 0 && g.dialedPeers[addr].numDials >= n
  }

  predicate DialPeriodExpired(g: Gate, addr: Multiaddr, now: Instant) {
    addr in g.dialedPeers && Elapsed(g.dialedPeers[addr].lastDial, now) > g.config.dialPeriod
  }

  predicate InBlockedSubnet(g: Gate, ip: Ip) {
    exists net :: net in g.blockedSubnets && Contains(net, ip)
  }

  /** The verdict of `can_dial`. */
  function CanDial(g: Gate, addr: Multiaddr, now: Instant): Option<DialError> {
    match PeerOf(addr)
    case None => Some(InvalidMultiaddr(addr))
    case Some(peer) =>
      if peer in g.currentDials then Some(AlreadyDialing(peer))
      else if peer !in g.protectedPeers && DialThresholdReached(g, addr) && !DialPeriodExpired(g, addr, now) then
        Some(ThresholdReached(addr))
      else if peer in g.blockedPeers then Some(PeerBlocked(peer))
      else
        match IpOf(addr)
        case None => Some(InvalidIpAddress(addr))
        case Some(ip) =>
          if ip in g.blockedAddrs then Some(AddressBlocked(ip))
          else if InBlockedSubnet(g, ip) then Some(SubnetBlocked(ip))
          else None
  }

  /** The gate after `can_dial`: two refusals mark the peer as one that cannot be connected to. */
  function Asked(g: Gate, addr: Multiaddr, now: Instant): Gate {
    match CanDial(g, addr, now)
    case Some(ThresholdReached(_)) => Mark(g, PeerOf(addr).value, CannotConnect)
    case Some(AddressBlocked(_)) => Mark(g, PeerOf(addr).value, CannotConnect)
    case _ => g
  }

  function Mark(g: Gate, peer: PeerId, c: Connectedness): Gate {
    g.(connectedness := g.connectedness[peer := c])
  }

  function Dialing(g: Gate, peer: PeerId): Gate {
    Mark(g.(currentDials := g.currentDials + {peer}), peer, Connected)
  }

  /** `elapsedAt` and `stampedAt` are the two clock readings that `dialed` takes. */
  function Dialed(g: Gate, addr: Multiaddr, elapsedAt: Instant, stampedAt: Instant): Gate {
    var before := if addr !in g.dialedPeers || DialPeriodExpired(g, addr, elapsedAt) then 0
                  else g.dialedPeers[addr].numDials;
    g.(dialedPeers := g.dialedPeers[addr := DialInfo(before + 1, stampedAt)])
  }

  function RemoveDial(g: Gate, peer: PeerId): Gate {
    g.(currentDials := g.currentDials - {peer})
  }

  function ConnectednessOf(g: Gate, peer: PeerId): Connectedness {
    if peer in g.connectedness then g.connectedness[peer] else NotConnected
  }

  // ---------------------------------------------------------------------------------------------
  // Events

  datatype Event =
    /** A request to dial, with the swarm's connected peers, its answer to the dial, and the clock readings. */
    | Dial(addr: Multiaddr, connected: set<PeerId>, swarmOk: bool,
           checkedAt: Instant, elapsedAt: Instant, stampedAt: Instant)
    | OutgoingError(peer: PeerId)
    | Closed(peer: PeerId)
    /** Peer monitoring bans the peer; `known` says whether the peer store had it. */
    | Banned(peer: PeerId, known: bool)
    | BlockPeer(peer: PeerId)
    | UnblockPeer(peer: PeerId)
    | BlockAddr(ip: Ip)
    | UnblockAddr(ip: Ip)
    | BlockSubnet(net: Subnet)
    | UnblockSubnet(net: Subnet)
    | Protect(peer: PeerId)
    | Unprotect(peer: PeerId)

  /** The event is a request that reaches the swarm's `dial`. */
  predicate ReachesSwarm(g: Gate, e: Event) {
    && e.Dial?
    && CanDial(g, e.addr, e.checkedAt).None?
    && PeerOf(e.addr).Some?
    && PeerOf(e.addr).value !in e.connected
  }

  function DialMultiaddr(g: Gate, e: Event): Gate
    requires e.Dial?
  {
    if !ReachesSwarm(g, e) then Asked(g, e.addr, e.checkedAt)
    else
      var peer := PeerOf(e.addr).value;
      var dialing := Dialing(g, peer);
      if e.swarmOk then Dialed(dialing, e.addr, e.elapsedAt, e.stampedAt) else RemoveDial(dialing, peer)
  }

  function Apply(g: Gate, e: Event): Gate {
    match e
    case Dial(_, _, _, _, _, _) => DialMultiaddr(g, e)
    case OutgoingError(_) => g
    case Closed(peer) => RemoveDial(g, peer)
    case Banned(peer, known) => if known then RemoveDial(g, peer) else g
    case BlockPeer(peer) => Mark(g.(blockedPeers := g.blockedPeers + {peer}), peer, CannotConnect)
    case UnblockPeer(peer) => Mark(g.(blockedPeers := g.blockedPeers - {peer}), peer, NotConnected)
    case BlockAddr(ip) => g.(blockedAddrs := g.blockedAddrs + {ip})
    case UnblockAddr(ip) => g.(blockedAddrs := g.blockedAddrs - {ip})
    case BlockSubnet(net) => g.(blockedSubnets := g.blockedSubnets + {net})
    case UnblockSubnet(net) => g.(blockedSubnets := g.blockedSubnets - {net})
    case Protect(peer) => g.(protectedPeers := g.protectedPeers + {peer})
    case Unprotect(peer) => g.(protectedPeers := g.protectedPeers - {peer})
  }

  // ---------------------------------------------------------------------------------------------
  // The gate as an object

  class ConnectionGater {
    const config: Config
    var currentDials: set<PeerId>
    var dialedPeers: map<Multiaddr, DialInfo>
    var connectedness: map<PeerId, Connectedness>
    var protectedPeers: set<PeerId>
    var blockedPeers: set<PeerId>
    var blockedAddrs: set<Ip>
    var blockedSubnets: set<Subnet>

    function Value(): Gate
      reads this
    {
      Gate(config, currentDials, dialedPeers, connectedness, protectedPeers, blockedPeers, blockedAddrs, blockedSubnets)
    }

    constructor (config: Config)
      ensures Value() == NewGate(config)
    {
      this.config := config;
      currentDials, dialedPeers, connectedness := {}, map[], map[];
      protectedPeers, blockedPeers, blockedAddrs, blockedSubnets := {}, {}, {}, {};
    }

    static method FindPeer(addr: Multiaddr) returns (peer: Option<PeerId>)
      ensures peer == PeerOf(addr)
    {
      var i := 0;
      while i < |addr|
        invariant 0 <= i <= |addr|
        invariant PeerOf(addr) == PeerOf(addr[i..])
      {
        if addr[i].P2p? {
          return Some(addr[i].peer);
        }
        assert addr[i..][1..] == addr[i + 1..];
        i := i + 1;
      }
      peer := None;
    }

    static method FindIp(addr: Multiaddr) returns (ip: Option<Ip>)
      ensures ip == IpOf(addr)
    {
      var i := 0;
      while i < |addr|
        invariant 0 <= i <= |addr|
        invariant IpOf(addr) == IpOf(addr[i..])
      {
        match addr[i] {
          case Ip4(a) => return Some(V4(a));
          case Ip6(a) => return Some(V6(a));
          case _ =>
        }
        assert addr[i..][1..] == addr[i + 1..];
        i := i + 1;
      }
      ip := None;
    }

    method CheckIpInBlockedSubnets(ip: Ip) returns (blocked: bool)
      ensures blocked == InBlockedSubnet(Value(), ip)
    {
      var rest := blockedSubnets;
      while rest != {}
        invariant rest <= blockedSubnets
        invariant forall net | net in blockedSubnets - rest :: !Contains(net, ip)
        decreases |rest|
      {
        var net :| net in rest;
        if Contains(net, ip) {
          return true;
        }
        rest := rest - {net};
      }
      blocked := false;
    }

    method CanDialAddr(addr: Multiaddr, now: Instant) returns (refusal: Option<DialError>)
      modifies this`connectedness
      ensures refusal == CanDial(old(Value()), addr, now)
      ensures Value() == Asked(old(Value()), addr, now)
    {
      var peer := FindPeer(addr);
      if peer.None? {
        return Some(InvalidMultiaddr(addr));
      }
      var id := peer.value;
      if id in currentDials {
        return Some(AlreadyDialing(id));
      }
      if id !in protectedPeers && DialThresholdReached(Value(), addr) && !DialPeriodExpired(Value(), addr, now) {
        connectedness := connectedness[id := CannotConnect];
        return Some(ThresholdReached(addr));
      }
      if id in blockedPeers {
        return Some(PeerBlocked(id));
      }
      var ip := FindIp(addr);
      if ip.None? {
        return Some(InvalidIpAddress(addr));
      }
      if ip.value in blockedAddrs {
        connectedness := connectedness[id := CannotConnect];
        return Some(AddressBlocked(ip.value));
      }
      var inSubnet := CheckIpInBlockedSubnets(ip.value);
      refusal := if inSubnet then Some(SubnetBlocked(ip.value)) else None;
    }

    method RecordDial(addr: Multiaddr, elapsedAt: Instant, stampedAt: Instant)
      modifies this`dialedPeers
      ensures Value() == Dialed(old(Value()), addr, elapsedAt, stampedAt)
    {
      var info := if addr in dialedPeers then dialedPeers[addr] else DialInfo(0, elapsedAt);
      if Elapsed(info.lastDial, elapsedAt) > config.dialPeriod {
        info := info.(numDials := 0);
      }
      dialedPeers := dialedPeers[addr := DialInfo(info.numDials + 1, stampedAt)];
    }

    /** The dial flow of the gossip driver. */
    method DialAddr(e: Event)
      requires e.Dial?
      modifies this
      ensures Value() == DialMultiaddr(old(Value()), e)
    {
      var refusal := CanDialAddr(e.addr, e.checkedAt);
      if refusal.Some? {
        return;
      }
      var peer := FindPeer(e.addr);
      if peer.None? || peer.value in e.connected {
        return;
      }
      currentDials := currentDials + {peer.value};
      connectedness := connectedness[peer.value := Connected];
      if e.swarmOk {
        RecordDial(e.addr, e.elapsedAt, e.stampedAt);
      } else {
        currentDials := currentDials - {peer.value};
      }
    }

    method On(e: Event)
      modifies this
      ensures Value() == Apply(old(Value()), e)
    {
      match e
      case Dial(_, _, _, _, _, _) => DialAddr(e);
      case OutgoingError(_) =>
      case Closed(peer) => currentDials := currentDials - {peer};
      case Banned(peer, known) =>
        if known {
          currentDials := currentDials - {peer};
        }
      case BlockPeer(peer) =>
        blockedPeers := blockedPeers + {peer};
        connectedness := connectedness[peer := CannotConnect];
      case UnblockPeer(peer) =>
        blockedPeers := blockedPeers - {peer};
        connectedness := connectedness[peer := NotConnected];
      case BlockAddr(ip) => blockedAddrs := blockedAddrs + {ip};
      case UnblockAddr(ip) => blockedAddrs := blockedAddrs - {ip};
      case BlockSubnet(net) => blockedSubnets := blockedSubnets + {net};
      case UnblockSubnet(net) => blockedSubnets := blockedSubnets - {net};
      case Protect(peer) => protectedPeers := protectedPeers + {peer};
      case Unprotect(peer) => protectedPeers := protectedPeers - {peer};
    }
  }
}
