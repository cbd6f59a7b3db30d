/** What the gate counts, and exactly when it refuses a dial as over the limit. */
module DialBursts {
  import opened Prelude
  import opened Gater
  import opened GaterTheorems

  /** The last event of a non-empty run dials the address and the swarm takes the dial. */
  predicate DialsLast(config: Config, es: Run, addr: Multiaddr)
    requires es != []
  {
    ReachesSwarm(After(config, DropLast(es)), Last(es)) && Last(es).addr == addr && Last(es).swarmOk
  }

  /** The most recent dial of the address that the swarm took. */
  function LastDial(config: Config, es: Run, addr: Multiaddr): (i: Option<nat>)
    ensures i.Some? ==> i.value < |es| && es[i.value].Dial?
  {
    if es == [] then None
    else if DialsLast(config, es, addr) then Some(|es| - 1)
    else LastDial(config, DropLast(es), addr)
  }

  /** The last event is a dial of the address that is its first, or comes more than a period after the one before. */
  predicate StartsBurst(config: Config, es: Run, addr: Multiaddr)
    requires es != []
  {
    && DialsLast(config, es, addr)
    && match LastDial(config, DropLast(es), addr)
       case None => true
       case Some(i) => Elapsed(es[i].stampedAt, Last(es).elapsedAt) > config.dialPeriod
  }

  /** Where the burst of dials that is under way began: the last dial that came after a gap longer than a period. */
  function BurstStart(config: Config, es: Run, addr: Multiaddr): (i: Option<nat>)
    ensures i.Some? ==> i.value < |es|
  {
    if es == [] then None
    else if StartsBurst(config, es, addr) then Some(|es| - 1)
    else BurstStart(config, DropLast(es), addr)
  }

  /** How many dials of the address were taken since the last gap longer than a period. */
  function BurstSize(config: Config, es: Run, addr: Multiaddr): nat {
    match BurstStart(config, es, addr)
    case None => 0
    case Some(i) => DialsSince(config, es, addr, i)
  }

  /** Only a dial of the address that the swarm takes changes what is recorded of it. */
  lemma OthersKeepCount(g: Gate, e: Event, addr: Multiaddr)
    requires !(ReachesSwarm(g, e) && e.addr == addr && e.swarmOk)
    ensures addr in Apply(g, e).dialedPeers <==> addr in g.dialedPeers
    ensures addr in g.dialedPeers ==> Apply(g, e).dialedPeers[addr] == g.dialedPeers[addr]
  {
    hide CanDial;
  }

  lemma DialCounts(g: Gate, e: Event)
    requires ReachesSwarm(g, e) && e.swarmOk
    ensures var again := e.addr in g.dialedPeers
                         && Elapsed(g.dialedPeers[e.addr].lastDial, e.elapsedAt) <= g.config.dialPeriod;
            && e.addr in Apply(g, e).dialedPeers
            && Apply(g, e).dialedPeers[e.addr]
               == DialInfo(1 + if again then g.dialedPeers[e.addr].numDials else 0, e.stampedAt)
  {
    hide CanDial;
  }

  /** The gate's record of an address is the size of its current burst and the time of its last dial. */
  lemma {:induction false} BurstCounted(config: Config, es: Run, addr: Multiaddr)
    ensures var last, dialed := LastDial(config, es, addr), After(config, es).dialedPeers;
            && (addr in dialed <==> last.Some?)
            && (last.Some? ==> BurstSize(config, es, addr) >= 1)
            && (last.Some? ==> dialed[addr] == DialInfo(BurstSize(config, es, addr), es[last.value].stampedAt))
    decreases |es|
  {
    if es != [] {
      var before, e := DropLast(es), Last(es);
      BurstCounted(config, before, addr);
      ConfigKept(config, before);
      var g := After(config, before);
      if DialsLast(config, es, addr) {
        DialCounts(g, e);
        NoneSince(config, before, addr, |before|);
      } else {
        OthersKeepCount(g, e, addr);
      }
      hide Apply, ReachesSwarm, After;
    }
  }

  lemma NoneSince(config: Config, es: Run, addr: Multiaddr, i: nat)
    requires |es| <= i
    ensures DialsSince(config, es, addr, i) == 0
  {
  }

  /**
   * A request is refused as over the limit exactly when its peer is neither in flight nor protected, a limit is
   * configured, the current burst of dials of that very address has reached it, and the last of them is at most a
   * period old.
   */
  lemma RefusedIff(config: Config, es: Run, addr: Multiaddr, now: Instant)
    ensures CanDial(After(config, es), addr, now) == Some(ThresholdReached(addr))
       <==> (&& PeerOf(addr).Some?
             && PeerOf(addr).value !in After(config, es).currentDials
             && PeerOf(addr).value !in After(config, es).protectedPeers
             && DialLimit(config).Some? && BurstSize(config, es, addr) >= DialLimit(config).value
             && LastDial(config, es, addr).Some?
             && Elapsed(es[LastDial(config, es, addr).value].stampedAt, now) <= config.dialPeriod)
  {
    BurstCounted(config, es, addr);
    ConfigKept(config, es);
    hide After, BurstSize, LastDial;
  }

  /** A threshold of zero never refuses, after any run. */
  lemma ZeroNeverRefuses(config: Config, es: Run, addr: Multiaddr, now: Instant)
    requires config.peerRedialing == Some(0)
    ensures CanDial(After(config, es), addr, now) != Some(ThresholdReached(addr))
  {
    RefusedIff(config, es, addr, now);
    hide CanDial, After;
  }

  /** No threshold at all refuses every further dial of the address within a period of the last. */
  lemma NoneMeansOne(config: Config, es: Run, addr: Multiaddr, now: Instant)
    requires config.peerRedialing.None? && LastDial(config, es, addr).Some? && PeerOf(addr).Some?
    requires PeerOf(addr).value !in After(config, es).currentDials + After(config, es).protectedPeers
    ensures CanDial(After(config, es), addr, now) == Some(ThresholdReached(addr))
       <==> Elapsed(es[LastDial(config, es, addr).value].stampedAt, now) <= config.dialPeriod
  {
    RefusedIff(config, es, addr, now);
    BurstCounted(config, es, addr);
    hide CanDial, After, BurstSize, LastDial;
  }

  /**
   * The refusal is not the sliding window: with two dials allowed per 60, dials at 0 and 50 have a request at 100
   * refused although only one of them lies in the 60 before it.
   */
  lemma RefusedInsideWindow(peer: PeerId, ip: nat)
    ensures var config, addr := Config(Some(2), 60), [Ip4(ip), P2p(peer)];
            var first, second := Dial(addr, {}, true, 0, 0, 0), Dial(addr, {}, true, 50, 50, 50);
            var es := [first, Closed(peer), second, Closed(peer)];
            && ReachesSwarm(After(config, []), first) && ReachesSwarm(After(config, es[..2]), second)
            && CanDial(After(config, es), addr, 100) == Some(ThresholdReached(addr))
  {
    var config, addr := Config(Some(2), 60), [Ip4(ip), P2p(peer)];
    var first, second := Dial(addr, {}, true, 0, 0, 0), Dial(addr, {}, true, 50, 50, 50);
    var es := [first, Closed(peer), second, Closed(peer)];
    IpAndPeer(Ip4(ip), peer);
    assert DropLast(es) == es[..3] && DropLast(es[..3]) == es[..2] && DropLast(es[..2]) == [first];
    assert DropLast([first]) == [];
    assert After(config, [first]) == Apply(NewGate(config), first);
    assert After(config, es[..2]) == Apply(After(config, [first]), Closed(peer));
    assert After(config, es[..3]) == Apply(After(config, es[..2]), second);
    assert After(config, es) == Apply(After(config, es[..3]), Closed(peer));
    hide PeerOf, IpOf, After;
  }
}
