/** The bounded store of known peers: a queue that keeps each peer once and drops the oldest. */
module BootStore {
  import opened Prelude

  const MAX_PEERS: nat := 2048

  /** What record equality compares. */
  datatype Peer = Peer(seqNo: u64, nodeId: Bytes, signature: Bytes)

  // ---------------------------------------------------------------------------------------------
  // The store on values

  /** A peer already held changes nothing; a new one goes last, and one peer is dropped from a full store. */
  function AddRotate(s: seq<Peer>, p: Peer): seq<Peer> {
    if p in s then s
    else if |s| + 1 > MAX_PEERS then (s + [p])[1..]
    else s + [p]
  }

  function Merge(s: seq<Peer>, arrivals: seq<Peer>): seq<Peer> {
    if arrivals == [] then s else AddRotate(Merge(s, DropLast(arrivals)), Last(arrivals))
  }

  class Store {
    var peers: seq<Peer>

    /** A store starts from whatever the file held; neither its length nor its contents are checked. */
    constructor (stored: seq<Peer>)
      ensures peers == stored
    {
      peers := stored;
    }

    method AddEnr(p: Peer)
      modifies this
      ensures peers == AddRotate(old(peers), p)
    {
      if p in peers {
        return;
      }
      peers := peers + [p];
      if |peers| > MAX_PEERS {
        peers := peers[1..];
      }
    }

    method MergeAll(arrivals: seq<Peer>)
      modifies this
      ensures peers == Merge(old(peers), arrivals)
      ensures peers == Newest(Log(old(peers), arrivals), Capacity(old(peers)))
      ensures Distinct(old(peers)) ==> Distinct(peers)
    {
      for i := 0 to |arrivals|
        invariant peers == Merge(old(peers), arrivals[..i])
      {
        assert DropLast(arrivals[..i + 1]) == arrivals[..i];
        AddEnr(arrivals[i]);
      }
      assert arrivals[..|arrivals|] == arrivals;
      MergeIsNewest(old(peers), arrivals);
      if Distinct(old(peers)) {
        MergeDistinct(old(peers), arrivals);
      }
    }
  }

  // ---------------------------------------------------------------------------------------------
  // The reference: a log that only grows, and a window on its end

  ghost predicate Distinct(s: seq<Peer>) {
    forall i, j :: 0 <= i < j < |s| ==> s[i] != s[j]
  }

  /** The last `n` entries. */
  function Newest(log: seq<Peer>, n: nat): seq<Peer> {
    if |log| <= n then log else log[|log| - n..]
  }

  /** A store read from a larger file keeps its size. */
  function Capacity(initial: seq<Peer>): nat {
    if |initial| <= 2048 then 2048 else |initial|
  }

  /** The initial peers, then every arrival that the window did not show when it came. */
  function Log(initial: seq<Peer>, arrivals: seq<Peer>): seq<Peer> {
    if arrivals == [] then initial
    else
      var log := Log(initial, DropLast(arrivals));
      if Last(arrivals) in Newest(log, Capacity(initial)) then log else log + [Last(arrivals)]
  }

  lemma {:induction false} LogGrows(initial: seq<Peer>, arrivals: seq<Peer>)
    ensures |initial| <= |Log(initial, arrivals)| <= |initial| + |arrivals|
    ensures Log(initial, arrivals)[..|initial|] == initial
  {
    if arrivals != [] {
      LogGrows(initial, DropLast(arrivals));
    }
  }

  /** After any merges, the store is the newest part of the log, in the order of arrival. */
  lemma {:induction false} MergeIsNewest(initial: seq<Peer>, arrivals: seq<Peer>)
    ensures Merge(initial, arrivals) == Newest(Log(initial, arrivals), Capacity(initial))
  {
    if arrivals != [] {
      var before := DropLast(arrivals);
      MergeIsNewest(initial, before);
      LogGrows(initial, before);
      var log := Log(initial, before);
      if Last(arrivals) !in Newest(log, Capacity(initial)) {
        AddNewest(log, Last(arrivals), Capacity(initial));
      }
    }
  }

  lemma AddNewest(log: seq<Peer>, p: Peer, n: nat)
    requires n >= MAX_PEERS && (n > MAX_PEERS ==> |log| >= n)
    requires p !in Newest(log, n)
    ensures AddRotate(Newest(log, n), p) == Newest(log + [p], n)
  {
  }

  /** No peer is ever held twice, if none was at the start. */
  lemma {:induction false} MergeDistinct(initial: seq<Peer>, arrivals: seq<Peer>)
    requires Distinct(initial)
    ensures Distinct(Merge(initial, arrivals))
  {
    if arrivals != [] {
      MergeDistinct(initial, DropLast(arrivals));
      AddDistinct(Merge(initial, DropLast(arrivals)), Last(arrivals));
    }
  }

  lemma AddDistinct(s: seq<Peer>, p: Peer)
    requires Distinct(s)
    ensures Distinct(AddRotate(s, p))
  {
    if p !in s {
      assert Distinct(s + [p]);
    }
  }

  /** Whatever arrives, the store is within the limit afterwards exactly when the file was within it. */
  lemma BoundedIff(initial: seq<Peer>, arrivals: seq<Peer>)
    ensures |Merge(initial, arrivals)| <= 2048 <==> |initial| <= 2048
    ensures |initial| > 2048 ==> |Merge(initial, arrivals)| == |initial|
  {
    MergeIsNewest(initial, arrivals);
    LogGrows(initial, arrivals);
  }

  lemma {:induction false} MergeConcat(s: seq<Peer>, a: seq<Peer>, b: seq<Peer>)
    ensures Merge(s, a + b) == Merge(Merge(s, a), b)
    decreases |b|
  {
    if b == [] {
      assert a + b == a;
    } else {
      assert DropLast(a + b) == a + DropLast(b) && Last(a + b) == Last(b);
      MergeConcat(s, a, DropLast(b));
    }
  }

  /** Merging what the store holds changes neither the peers nor their order. */
  lemma {:induction false} MergeHeld(s: seq<Peer>, arrivals: seq<Peer>)
    requires forall p | p in arrivals :: p in s
    ensures Merge(s, arrivals) == s
  {
    if arrivals != [] {
      assert forall p | p in DropLast(arrivals) :: p in arrivals;
      MergeHeld(s, DropLast(arrivals));
      assert Last(arrivals) in arrivals;
    }
  }

  /** Of new and different peers the newest are kept, in order. */
  lemma {:induction false} LogOfNew(initial: seq<Peer>, arrivals: seq<Peer>)
    requires Distinct(initial + arrivals)
    ensures Log(initial, arrivals) == initial + arrivals
  {
    if arrivals == [] {
      assert initial + arrivals == initial;
    } else {
      var before := DropLast(arrivals);
      var all := initial + arrivals;
      assert initial + before == all[..|all| - 1];
      assert all == (initial + before) + [Last(arrivals)];
      LogOfNew(initial, before);
      var log := initial + before;
      assert forall i :: 0 <= i < |log| ==> log[i] == all[i] && all[i] != all[|all| - 1];
    }
  }

  lemma MergeNew(initial: seq<Peer>, arrivals: seq<Peer>)
    requires Distinct(initial + arrivals)
    ensures Merge(initial, arrivals) == Newest(initial + arrivals, Capacity(initial))
  {
    LogOfNew(initial, arrivals);
    MergeIsNewest(initial, arrivals);
  }

  /** A peer that was new on arrival outlives fewer than 2048 further arrivals, whatever they are. */
  lemma NewcomerKept(initial: seq<Peer>, p: Peer, later: seq<Peer>)
    requires p !in initial && |later| < 2048
    ensures p in Merge(initial, [p] + later)
  {
    var s := AddRotate(initial, p);
    assert Merge(initial, [p]) == s by {
      assert DropLast([p]) == [];
    }
    MergeConcat(initial, [p], later);
    MergeIsNewest(s, later);
    LogGrows(s, later);
    var log := Log(s, later);
    assert log[|s| - 1] == Last(s) == p by {
      assert log[..|s|][|s| - 1] == Last(s);
    }
    var n := Capacity(s);
    if |log| > n {
      assert Newest(log, n)[|s| - 1 - (|log| - n)] == p;
    }
  }

  /** Seeing a peer again does not renew it: in a full store the oldest, seen again, still goes next. */
  lemma SeenAgainStillOldest(s: seq<Peer>, p: Peer)
    requires |s| >= 2048 && Distinct(s) && p !in s
    ensures s[0] !in Merge(s, [s[0], p])
  {
    assert DropLast([s[0], p]) == [s[0]] && DropLast([s[0]]) == [];
    assert Merge(s, [s[0]]) == s;
    assert Merge(s, [s[0], p]) == (s + [p])[1..];
  }
}
