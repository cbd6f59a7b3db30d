/** What the gate guarantees over every run of dials, closes, bans and admin operations. */
module GaterTheorems {
  import opened Prelude
  import opened Gater

  type Run = seq<Event>

  /** The gate after a run that started from a new gate. */
  function After(config: Config, es: Run): Gate {
    if es == [] then NewGate(config) else Apply(After(config, DropLast(es)), Last(es))
  }

  lemma {:induction false} ConfigKept(config: Config, es: Run)
    ensures After(config, es).config == config
    decreases |es|
  {
    if es != [] {
      ConfigKept(config, DropLast(es));
    }
  }

  predicate Swarmed(config: Config, es: Run, i: nat) {
    i < |es| && ReachesSwarm(After(config, es[..i]), es[i])
  }

  /** Event `i` dials the address and the swarm takes the dial. */
  predicate DialsOk(config: Config, es: Run, i: nat, addr: Multiaddr) {
    Swarmed(config, es, i) && es[i].addr == addr && es[i].swarmOk
  }

  // ---------------------------------------------------------------------------------------------
  // Rate limit

  /** The most recent clock reading of a run. */
  function Now(es: Run): Instant {
    if es == [] then 0 else if Last(es).Dial? then Last(es).stampedAt else Now(DropLast(es))
  }

  /** Clock readings never go back. */
  predicate ClockRuns(es: Run) {
    es == []
    || (&& ClockRuns(DropLast(es))
        && (Last(es).Dial? ==>
              Now(DropLast(es)) <= Last(es).checkedAt <= Last(es).elapsedAt <= Last(es).stampedAt))
  }

  /** How many dials of the address the swarm took from event `i` on. */
  function DialsSince(config: Config, es: Run, addr: Multiaddr, i: nat): nat {
    if |es| <= i then 0
    else
      DialsSince(config, DropLast(es), addr, i)
      + var g := After(config, DropLast(es));
        if ReachesSwarm(g, Last(es)) && Last(es).addr == addr && Last(es).swarmOk then 1 else 0
  }

  /** Dials per period: one when no threshold is configured, no limit when it is zero. */
  function DialLimit(config: Config): Option<nat> {
    match config.peerRedialing
    case None => Some(1)
    case Some(n) => if n == 0 then None else Some(n)
  }

  /** What the gate remembers of a dial at `t` that was followed, itself included, by `count` dials of the address. */
  predicate Remembers(g: Gate, addr: Multiaddr, t: Instant, count: nat) {
    && addr in g.dialedPeers
    && t <= g.dialedPeers[addr].lastDial
    && 1 <= g.dialedPeers[addr].numDials
    && (count <= g.dialedPeers[addr].numDials || t + g.config.dialPeriod < g.dialedPeers[addr].lastDial)
  }

  /** An event keeps the memory of earlier dials, counting the new one if it is one. */
  lemma MemoryKept(g: Gate, e: Event, addr: Multiaddr, t: Instant, count: nat)
    requires Remembers(g, addr, t, count)
    requires e.Dial? ==> g.dialedPeers[addr].lastDial <= e.elapsedAt <= e.stampedAt
    ensures var more := if ReachesSwarm(g, e) && e.addr == addr && e.swarmOk then 1 else 0;
            Remembers(Apply(g, e), addr, t, count + more)
  {
    hide CanDial, InBlockedSubnet;
  }

  lemma MemoryStarts(g: Gate, e: Event)
    requires ReachesSwarm(g, e) && e.swarmOk
    ensures Remembers(Apply(g, e), e.addr, e.stampedAt, 1)
  {
    hide CanDial;
  }

  /** The gate's clock stamps are clock readings of the run. */
  lemma {:induction false} StampsPast(config: Config, es: Run, addr: Multiaddr)
    requires ClockRuns(es)
    ensures addr in After(config, es).dialedPeers ==> After(config, es).dialedPeers[addr].lastDial <= Now(es)
    decreases |es|
  {
    if es != [] {
      StampsPast(config, DropLast(es), addr);
      hide CanDial;
    }
  }

  lemma {:induction false} DialRemembered(config: Config, es: Run, addr: Multiaddr, i: nat)
    requires ClockRuns(es) && DialsOk(config, es, i, addr)
    ensures Remembers(After(config, es), addr, es[i].stampedAt, DialsSince(config, es, addr, i))
    decreases |es|
  {
    var before := DropLast(es);
    if i == |es| - 1 {
      assert es[..i] == before;
      MemoryStarts(After(config, before), es[i]);
    } else {
      assert before[..i] == es[..i];
      DialRemembered(config, before, addr, i);
      StampsPast(config, before, addr);
      hide Apply, ReachesSwarm;
      MemoryKept(After(config, before), Last(es), addr, es[i].stampedAt, DialsSince(config, before, addr, i));
    }
  }

  lemma {:induction false} ClockPrefix(es: Run, j: nat)
    requires ClockRuns(es) && j < |es|
    ensures ClockRuns(es[..j])
    ensures es[j].Dial? ==> Now(es[..j]) <= es[j].checkedAt <= es[j].elapsedAt <= es[j].stampedAt
    decreases |es|
  {
    if j < |es| - 1 {
      ClockPrefix(DropLast(es), j);
      assert DropLast(es)[..j] == es[..j];
    }
  }

  /**
   * The sliding-window bound: if a dial at `j` of an unprotected peer comes after at least `limit` dials of the same
   * address from `i` on, then `i` and `j` lie strictly more than a dial period apart, whatever happened in between.
   */
  lemma RateLimit(config: Config, es: Run, addr: Multiaddr, i: nat, j: nat)
    requires ClockRuns(es) && i < j
    requires DialsOk(config, es, i, addr) && DialsOk(config, es, j, addr)
    requires PeerOf(addr).value !in After(config, es[..j]).protectedPeers
    requires DialLimit(config).Some? && DialsSince(config, es[..j], addr, i) >= DialLimit(config).value
    ensures es[j].stampedAt > es[i].stampedAt + config.dialPeriod
  {
    var before := es[..j];
    ClockPrefix(es, j);
    assert before[..i] == es[..i] && before[i] == es[i];
    DialRemembered(config, before, addr, i);
    ConfigKept(config, before);
    StampsPast(config, before, addr);
    hide After, DialsSince, ClockRuns, Now, Remembers, ReachesSwarm, DialLimit;
    DialAllowed(After(config, before), es[j], addr, es[i].stampedAt, DialsSince(config, before, addr, i));
  }

  lemma DialAllowed(g: Gate, e: Event, addr: Multiaddr, t: Instant, count: nat)
    requires ReachesSwarm(g, e) && e.addr == addr && PeerOf(addr).value !in g.protectedPeers
    requires Remembers(g, addr, t, count)
    requires DialLimit(g.config).Some? && count >= DialLimit(g.config).value
    requires e.checkedAt <= e.stampedAt && g.dialedPeers[addr].lastDial <= e.stampedAt
    ensures e.stampedAt > t + g.config.dialPeriod
  {
    assert !DialThresholdReached(g, addr) || DialPeriodExpired(g, addr, e.checkedAt);
  }

  /** A run of three events, unrolled. */
  lemma ThreeEvents(config: Config, a: Event, b: Event, c: Event)
    ensures After(config, [a]) == Apply(NewGate(config), a)
    ensures After(config, [a, b, c]) == Apply(Apply(Apply(NewGate(config), a), b), c)
  {
    hide Apply;
    assert DropLast([a, b, c]) == [a, b] && DropLast([a, b]) == [a] && DropLast([a]) == [];
    assert After(config, [a]) == Apply(NewGate(config), a);
    assert After(config, [a, b]) == Apply(After(config, [a]), b);
  }

  /** An address of an IP and a peer. */
  lemma IpAndPeer(ip: Component, peer: PeerId)
    requires IsIp(ip)
    ensures PeerOf([ip, P2p(peer)]) == Some(peer)
    ensures IpOf([ip, P2p(peer)]) == Some(if ip.Ip4? then V4(ip.addr) else V6(ip.addr))
  {
    var addr := [ip, P2p(peer)];
    assert addr[0] == ip && addr[1..] == [P2p(peer)];
    assert PeerOf(addr) == PeerOf([P2p(peer)]);
  }

  /** The limit is lifted by protection: a protected peer is dialed again at once after its connection closed. */
  lemma ProtectedUnlimited(period: Duration, peer: PeerId, ip: nat)
    ensures var config, addr := Config(None, period), [Ip4(ip), P2p(peer)];
            var dial := Dial(addr, {}, true, 0, 0, 0);
            && ReachesSwarm(After(config, [Protect(peer)]), dial)
            && ReachesSwarm(After(config, [Protect(peer), dial, Closed(peer)]), dial)
  {
    var config, addr := Config(None, period), [Ip4(ip), P2p(peer)];
    IpAndPeer(Ip4(ip), peer);
    ThreeEvents(config, Protect(peer), Dial(addr, {}, true, 0, 0, 0), Closed(peer));
    hide PeerOf, IpOf, After;
  }

  /** The limit is per address: a peer refused at one address is dialed at once through another of its own. */
  lemma LimitIsPerAddress(period: Duration, peer: PeerId, ip: nat)
    ensures var config, addr, other := Config(None, period), [Ip4(ip), P2p(peer)], [Ip6(ip), P2p(peer)];
            var dial := Dial(addr, {}, true, 0, 0, 0);
            var g := After(config, [Unprotect(peer), dial, Closed(peer)]);
            && ReachesSwarm(After(config, [Unprotect(peer)]), dial)
            && !ReachesSwarm(g, dial) && ReachesSwarm(g, dial.(addr := other))
  {
    var config, addr, other := Config(None, period), [Ip4(ip), P2p(peer)], [Ip6(ip), P2p(peer)];
    IpAndPeer(Ip4(ip), peer);
    IpAndPeer(Ip6(ip), peer);
    ThreeEvents(config, Unprotect(peer), Dial(addr, {}, true, 0, 0, 0), Closed(peer));
    hide PeerOf, IpOf, After;
  }

  // ---------------------------------------------------------------------------------------------
  // Single flight

  /** The event lets go of a dial: the peer's connection closed, or peer monitoring banned a peer it knew. */
  predicate Releases(e: Event, peer: PeerId) {
    e == Closed(peer) || e == Banned(peer, true)
  }

  lemma FlightKept(g: Gate, e: Event, peer: PeerId)
    requires peer in g.currentDials && !Releases(e, peer)
    ensures peer in Apply(g, e).currentDials
  {
    hide DialThresholdReached, DialPeriodExpired, InBlockedSubnet;
  }

  /** Event `i` is a dial of the peer that the swarm took and that no later event released. */
  predicate Unreleased(config: Config, es: Run, i: nat, peer: PeerId) {
    && Swarmed(config, es, i) && es[i].swarmOk && PeerOf(es[i].addr) == Some(peer)
    && forall k | i < k < |es| :: !Releases(es[k], peer)
  }

  /** A dial the swarm took stays in flight until it is released. */
  lemma {:induction false} InFlight(config: Config, es: Run, i: nat, peer: PeerId)
    requires Unreleased(config, es, i, peer)
    ensures peer in After(config, es).currentDials
    decreases |es|
  {
    var before := DropLast(es);
    if i == |es| - 1 {
      assert es[..i] == before;
      hide CanDial;
    } else {
      assert before[..i] == es[..i];
      InFlight(config, before, i, peer);
      FlightKept(After(config, before), Last(es), peer);
    }
  }

  /** A peer comes into flight only by a dial that the swarm takes, and a release takes it out. */
  lemma FlightBegins(g: Gate, e: Event, peer: PeerId)
    requires peer in Apply(g, e).currentDials
    ensures !Releases(e, peer)
    ensures peer in g.currentDials || (ReachesSwarm(g, e) && e.swarmOk && PeerOf(e.addr) == Some(peer))
  {
    hide CanDial;
  }

  /** Every peer in flight is there by a dial of its own that was never released. */
  lemma {:induction false} InFlightBy(config: Config, es: Run, peer: PeerId) returns (i: nat)
    requires peer in After(config, es).currentDials
    ensures Unreleased(config, es, i, peer)
    decreases |es|
  {
    var before, e := DropLast(es), Last(es);
    FlightBegins(After(config, before), e, peer);
    hide Apply, ReachesSwarm;
    if peer in After(config, before).currentDials {
      i := InFlightBy(config, before, peer);
      assert before[..i] == es[..i];
      assert forall k | i < k < |es| - 1 :: es[k] == before[k];
    } else {
      i := |es| - 1;
      assert es[..i] == before;
    }
  }

  /**
   * Single flight: between two dials that reach the swarm for one peer, through whatever addresses, the first failed
   * at once or the peer was released; and no dial is made to a peer the swarm is connected to.
   */
  lemma SingleFlight(config: Config, es: Run, i: nat, j: nat)
    requires i < j && Swarmed(config, es, i) && Swarmed(config, es, j)
    requires PeerOf(es[i].addr) == PeerOf(es[j].addr)
    ensures !es[i].swarmOk || exists k | i < k < j :: Releases(es[k], PeerOf(es[i].addr).value)
    ensures PeerOf(es[j].addr).value !in es[j].connected
  {
    var peer := PeerOf(es[i].addr).value;
    if es[i].swarmOk && forall k | i < k < j :: !Releases(es[k], peer) {
      assert es[..j][..i] == es[..i];
      assert Unreleased(config, es[..j], i, peer);
      InFlight(config, es[..j], i, peer);
    }
  }

  /**
   * The other side of single flight: a request is refused as already dialing exactly while some dial of its peer is
   * unreleased. An asynchronous dial failure is no release, so a peer whose dial failed that way stays refused.
   */
  lemma RefusedInFlightIff(config: Config, es: Run, addr: Multiaddr, now: Instant, peer: PeerId)
    ensures CanDial(After(config, es), addr, now) == Some(AlreadyDialing(peer))
       <==> PeerOf(addr) == Some(peer) && exists i: nat :: Unreleased(config, es, i, peer)
  {
    hide After, Unreleased;
    if peer in After(config, es).currentDials {
      var i := InFlightBy(config, es, peer);
    } else if exists i: nat :: Unreleased(config, es, i, peer) {
      var i: nat :| Unreleased(config, es, i, peer);
      InFlight(config, es, i, peer);
    }
  }

  lemma UnreleasedRefused(config: Config, es: Run, i: nat, j: nat, peer: PeerId)
    requires i < j < |es| && Swarmed(config, es, i) && es[i].swarmOk && PeerOf(es[i].addr) == Some(peer)
    requires es[j].Dial? && PeerOf(es[j].addr) == Some(peer)
    requires forall k | i < k < j :: !Releases(es[k], peer)
    ensures CanDial(After(config, es[..j]), es[j].addr, es[j].checkedAt) == Some(AlreadyDialing(peer))
  {
    assert es[..j][..i] == es[..i];
    assert Unreleased(config, es[..j], i, peer);
    RefusedInFlightIff(config, es[..j], es[j].addr, es[j].checkedAt, peer);
  }

  // ---------------------------------------------------------------------------------------------
  // Addresses

  /** The peer of an address is that of its first peer component. */
  lemma {:induction false} PeerOfFirst(addr: Multiaddr)
    ensures PeerOf(addr).None? <==> forall i | 0 <= i < |addr| :: !addr[i].P2p?
    ensures forall i | 0 <= i < |addr| && addr[i].P2p? && (forall k | 0 <= k < i :: !addr[k].P2p?) ::
              PeerOf(addr) == Some(addr[i].peer)
    decreases |addr|
  {
    if addr != [] {
      var rest := addr[1..];
      PeerOfFirst(rest);
      assert forall i | 1 <= i < |addr| :: addr[i] == rest[i - 1];
      assert addr[0].P2p? || forall i | 0 <= i < |rest| :: rest[i] == addr[i + 1];
    }
  }

  predicate IsIp(c: Component) {
    c.Ip4? || c.Ip6?
  }

  /** The IP of an address is that of its first IP component, with its family. */
  lemma {:induction false} IpOfFirst(addr: Multiaddr)
    ensures IpOf(addr).None? <==> forall i | 0 <= i < |addr| :: !IsIp(addr[i])
    ensures forall i | 0 <= i < |addr| && IsIp(addr[i]) && (forall k | 0 <= k < i :: !IsIp(addr[k])) ::
              && IpOf(addr).Some?
              && IpOf(addr).value.bits == addr[i].addr && (IpOf(addr).value.V4? <==> addr[i].Ip4?)
    decreases |addr|
  {
    if addr != [] {
      var rest := addr[1..];
      IpOfFirst(rest);
      assert forall i | 1 <= i < |addr| :: addr[i] == rest[i - 1];
      assert IsIp(addr[0]) || forall i | 0 <= i < |rest| :: rest[i] == addr[i + 1];
    }
  }

  // ---------------------------------------------------------------------------------------------
  // Blocklists

  /** Whether the latest admin operation on a peer, an address or a range was a block. */
  predicate PeerIsBlocked(es: Run, peer: PeerId) {
    es != []
    && (Last(es) == BlockPeer(peer) || (Last(es) != UnblockPeer(peer) && PeerIsBlocked(DropLast(es), peer)))
  }

  predicate AddrIsBlocked(es: Run, ip: Ip) {
    es != []
    && (Last(es) == BlockAddr(ip) || (Last(es) != UnblockAddr(ip) && AddrIsBlocked(DropLast(es), ip)))
  }

  predicate NetIsBlocked(es: Run, net: Subnet) {
    es != []
    && (Last(es) == BlockSubnet(net) || (Last(es) != UnblockSubnet(net) && NetIsBlocked(DropLast(es), net)))
  }

  predicate IsProtected(es: Run, peer: PeerId) {
    es != [] && (Last(es) == Protect(peer) || (Last(es) != Unprotect(peer) && IsProtected(DropLast(es), peer)))
  }

  /** Requests to dial leave the lists alone. */
  lemma DialKeepsLists(g: Gate, e: Event)
    requires e.Dial?
    ensures var g' := DialMultiaddr(g, e);
            && g'.blockedPeers == g.blockedPeers
            && g'.blockedAddrs == g.blockedAddrs
            && g'.blockedSubnets == g.blockedSubnets
            && g'.protectedPeers == g.protectedPeers
  {
    hide CanDial;
  }

  /** The lists hold exactly what the admin log says is blocked, and what it says is protected. */
  lemma {:induction false} ListsMatchLog(config: Config, es: Run, peer: PeerId, ip: Ip, net: Subnet)
    ensures peer in After(config, es).blockedPeers <==> PeerIsBlocked(es, peer)
    ensures ip in After(config, es).blockedAddrs <==> AddrIsBlocked(es, ip)
    ensures net in After(config, es).blockedSubnets <==> NetIsBlocked(es, net)
    ensures peer in After(config, es).protectedPeers <==> IsProtected(es, peer)
    decreases |es|
  {
    if es != [] {
      ListsMatchLog(config, DropLast(es), peer, ip, net);
      if Last(es).Dial? {
        DialKeepsLists(After(config, DropLast(es)), Last(es));
      }
      hide DialMultiaddr;
    }
  }

  /**
   * No dial ever reaches a peer, an address or any range around the address whose latest admin operation is a block,
   * protected or not, and whatever narrower or wider ranges were unblocked.
   */
  lemma BlockedNeverDialed(config: Config, es: Run, j: nat)
    requires Swarmed(config, es, j)
    ensures !PeerIsBlocked(es[..j], PeerOf(es[j].addr).value)
    ensures IpOf(es[j].addr).Some? && !AddrIsBlocked(es[..j], IpOf(es[j].addr).value)
    ensures forall net | NetIsBlocked(es[..j], net) :: !Contains(net, IpOf(es[j].addr).value)
  {
    var before, ip := es[..j], IpOf(es[j].addr).value;
    ListsMatchLog(config, before, PeerOf(es[j].addr).value, ip, Subnet(ip, 0));
    forall net | NetIsBlocked(before, net)
      ensures !Contains(net, ip)
    {
      ListsMatchLog(config, before, PeerOf(es[j].addr).value, ip, net);
      assert !InBlockedSubnet(After(config, before), ip);
    }
  }

  /** Every blocked peer is marked as one that cannot be connected to. */
  predicate BlockedMarked(g: Gate) {
    forall p | p in g.blockedPeers :: ConnectednessOf(g, p) == CannotConnect
  }

  lemma MarksKept(g: Gate, e: Event)
    requires BlockedMarked(g)
    ensures BlockedMarked(Apply(g, e))
  {
    if e.Dial? {
      DialKeepsLists(g, e);
      if ReachesSwarm(g, e) {
        assert PeerOf(e.addr).value !in g.blockedPeers;
      }
      hide DialThresholdReached, DialPeriodExpired, InBlockedSubnet;
    }
  }

  /** The connectedness an event leaves a peer with, given the one before. */
  function StatusBy(g: Gate, e: Event, peer: PeerId, before: Connectedness): Connectedness {
    match e
    case BlockPeer(p) => if p == peer then CannotConnect else before
    case UnblockPeer(p) => if p == peer then NotConnected else before
    case Dial(addr, connected, _, now, _, _) =>
      if PeerOf(addr) != Some(peer) then before
      else
        (match CanDial(g, addr, now)
         case Some(ThresholdReached(_)) => CannotConnect
         case Some(AddressBlocked(_)) => CannotConnect
         case Some(_) => before
         case None => if peer in connected then before else Connected)
    case _ => before
  }

  function Status(config: Config, es: Run, peer: PeerId): Connectedness {
    if es == [] then NotConnected
    else StatusBy(After(config, DropLast(es)), Last(es), peer, Status(config, DropLast(es), peer))
  }

  lemma StatusStep(g: Gate, e: Event, peer: PeerId)
    ensures ConnectednessOf(Apply(g, e), peer) == StatusBy(g, e, peer, ConnectednessOf(g, peer))
  {
    hide DialThresholdReached, DialPeriodExpired, InBlockedSubnet, PeerOf, IpOf;
  }

  /** A peer is reported as its last block, unblock, dial or counting refusal left it, and as not connected before. */
  lemma {:induction false} StatusReported(config: Config, es: Run, peer: PeerId)
    ensures ConnectednessOf(After(config, es), peer) == Status(config, es, peer)
    decreases |es|
  {
    if es != [] {
      StatusReported(config, DropLast(es), peer);
      StatusStep(After(config, DropLast(es)), Last(es), peer);
      hide Apply, StatusBy, ConnectednessOf;
    }
  }

  /** In every reachable state every currently blocked peer is reported as one that cannot be connected to. */
  lemma {:induction false} BlockedReported(config: Config, es: Run, peer: PeerId)
    requires PeerIsBlocked(es, peer)
    ensures ConnectednessOf(After(config, es), peer) == CannotConnect
  {
    ListsMatchLog(config, es, peer, V4(0), Subnet(V4(0), 0));
    AlwaysMarked(config, es);
  }

  lemma {:induction false} AlwaysMarked(config: Config, es: Run)
    ensures BlockedMarked(After(config, es))
    decreases |es|
  {
    if es != [] {
      AlwaysMarked(config, DropLast(es));
      MarksKept(After(config, DropLast(es)), Last(es));
    }
  }
}
