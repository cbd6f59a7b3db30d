/** The pipeline cursor: a cache from L1 origin numbers to the L2 tips derived from them. */
module Cursor {
  import opened Prelude
  import opened Blocks

  /** The value of a cursor; `origins` is the eviction queue, `tips` the cache proper. */
  datatype State = State(
    capacity: nat, channelTimeout: u64, origin: BlockInfo,
    origins: seq<u64>, originInfos: map<u64, BlockInfo>, tips: map<u64, TipCursor>)

  /** Every cached tip is still queued for eviction and has its L1 block on record. */
  predicate Valid(c: State) {
    && c.capacity == c.channelTimeout + 5
    && (forall k | k in c.tips :: k in c.origins)
    && (forall k | k in c.tips :: k in c.originInfos)
  }

  predicate Ready(c: State) {
    Valid(c) && c.tips.Keys != {}
  }

  function Fresh(channelTimeout: u64, origin: BlockInfo): State {
    State(channelTimeout + 5, channelTimeout, origin, [origin.number], map[origin.number := origin], map[])
  }

  function TopKey(c: State): nat
    requires Ready(c)
  {
    MaxKey(c.tips.Keys)
  }

  function Tip(c: State): TipCursor
    requires Ready(c)
  {
    c.tips[TopKey(c)]
  }

  predicate Full(c: State) {
    |c.tips| >= c.capacity
  }

  /** What is left of the cache once the oldest queue entry has been dropped, if the cache is full. */
  function Survivors(c: State): map<u64, TipCursor>
    requires Valid(c)
  {
    if Full(c) && c.origins != [] then c.tips - {c.origins[0]} else c.tips
  }

  function Advance(c: State, origin: BlockInfo, tip: TipCursor): State
    requires Valid(c)
  {
    State(
      c.capacity, c.channelTimeout, origin,
      (if Full(c) && c.origins != [] then c.origins[1..] else c.origins) + [origin.number],
      c.originInfos[origin.number := origin],
      Survivors(c)[origin.number := tip])
  }

  /** A full cache never meets an empty eviction queue, so `pop_front().unwrap()` cannot fail. */
  lemma FullHasOldest(c: State)
    requires Valid(c) && Full(c)
    ensures c.origins != []
  {
    assert |c.tips.Keys| > 0;
  }

  /** Advancing keeps the queue covering the cache, whatever origin comes next. */
  lemma AdvanceKeepsReady(c: State, origin: BlockInfo, tip: TipCursor)
    requires Valid(c)
    ensures Ready(Advance(c, origin, tip))
  {
    var d := Advance(c, origin, tip);
    forall k | k in d.tips
      ensures k in d.origins
    {
      if k == origin.number {
        assert d.origins[|d.origins| - 1] == k;
      } else {
        var i :| 0 <= i < |c.origins| && c.origins[i] == k;
        if Full(c) {
          assert i > 0;
          assert d.origins[i - 1] == k;
        } else {
          assert d.origins[i] == k;
        }
      }
    }
    assert origin.number in d.tips.Keys;
  }

  /**
   * The new tip is the one a reader sees next exactly when no surviving entry belongs to a higher L1 block.
   */
  lemma AdvanceShowsTipIff(c: State, origin: BlockInfo, tip: TipCursor)
    requires Valid(c)
    ensures Ready(Advance(c, origin, tip))
    ensures TopKey(Advance(c, origin, tip)) == origin.number
       <==> (forall k | k in Survivors(c) :: k <= origin.number)
    ensures (forall k | k in Survivors(c) :: k <= origin.number) ==> Tip(Advance(c, origin, tip)) == tip
    ensures !(forall k | k in Survivors(c) :: k <= origin.number)
       ==> Survivors(c).Keys != {} && Tip(Advance(c, origin, tip)) == Survivors(c)[MaxKey(Survivors(c).Keys)]
  {
    AdvanceKeepsReady(c, origin, tip);
    var left, d := Survivors(c), Advance(c, origin, tip);
    assert d.tips.Keys == left.Keys + {origin.number};
    if k :| k in left && k > origin.number {
      assert k in d.tips.Keys;
      MaxOfUnion(left.Keys, origin.number);
    }
  }

  lemma MaxOfUnion(keys: set<nat>, n: nat)
    requires exists k :: k in keys && k > n
    ensures keys != {}
    ensures MaxKey(keys + {n}) == MaxKey(keys)
  {
    var k :| k in keys && k > n;
    assert MaxKey(keys) >= k;
    assert MaxKey(keys + {n}) >= k;
  }

  /** Origins that never fall behind the cache always show the newest tip, and become its highest key. */
  lemma AdvanceAscending(c: State, origin: BlockInfo, tip: TipCursor)
    requires Ready(c) && TopKey(c) <= origin.number
    ensures Ready(Advance(c, origin, tip))
    ensures TopKey(Advance(c, origin, tip)) == origin.number
    ensures Tip(Advance(c, origin, tip)) == tip
  {
    AdvanceShowsTipIff(c, origin, tip);
    forall k | k in Survivors(c)
      ensures k <= origin.number
    {
      assert k in c.tips.Keys;
    }
  }

  /**
   * The cache stays within its capacity exactly when a full cache evicts something that is still cached or
   * overwrites an entry: the queue holds one entry per advance, so its front may name an entry already gone.
   */
  lemma AdvanceWithinCapacityIff(c: State, origin: BlockInfo, tip: TipCursor)
    requires Valid(c) && |c.tips| <= c.capacity
    ensures |Advance(c, origin, tip).tips| <= c.capacity
       <==> !Full(c) || (c.origins != [] && c.origins[0] in c.tips) || origin.number in c.tips
  {
    if Full(c) {
      FullHasOldest(c);
      hide Valid;
      ReplacedSize(c.tips.Keys, c.origins[0], origin.number);
      assert Advance(c, origin, tip).tips.Keys == c.tips.Keys - {c.origins[0]} + {origin.number};
    } else {
      hide Valid;
      assert Advance(c, origin, tip).tips.Keys == c.tips.Keys + {origin.number};
    }
  }

  lemma ReplacedSize(keys: set<nat>, gone: nat, added: nat)
    ensures |keys - {gone} + {added}|
         == |keys| - (if gone in keys then 1 else 0) + (if added in keys - {gone} then 0 else 1)
  {
    var left := keys - {gone};
    if gone !in keys {
      assert left == keys;
    }
    if added in left {
      assert left + {added} == left;
    }
  }

  /** The cursor a proof run starts from: a fresh cursor advanced once to the agreed safe head. */
  function Start(channelTimeout: u64, origin: BlockInfo, tip: TipCursor): State {
    Advance(Fresh(channelTimeout, origin), origin, tip)
  }

  lemma StartShowsTip(channelTimeout: u64, origin: BlockInfo, tip: TipCursor)
    ensures Ready(Start(channelTimeout, origin, tip))
    ensures Tip(Start(channelTimeout, origin, tip)) == tip
    ensures TopKey(Start(channelTimeout, origin, tip)) == origin.number
  {
    AdvanceShowsTipIff(Fresh(channelTimeout, origin), origin, tip);
  }

  /** An origin one L1 block back files the new tip behind the old one: readers keep seeing the old tip. */
  lemma RegressionHidesTip(shown: TipCursor, tip: TipCursor)
    ensures var c := Start(0, BlockInfo(0, 5, 0, 0), shown);
            && Ready(c) && Ready(Advance(c, BlockInfo(0, 4, 0, 0), tip))
            && Tip(Advance(c, BlockInfo(0, 4, 0, 0), tip)) == shown
  {
    StartShowsTip(0, BlockInfo(0, 5, 0, 0), shown);
    StartQueue(0, BlockInfo(0, 5, 0, 0), shown);
    var c := Start(0, BlockInfo(0, 5, 0, 0), shown);
    assert 5 in Survivors(c);
    AdvanceShowsTipIff(c, BlockInfo(0, 4, 0, 0), tip);
  }

  /** One advance to L1 block `number`. */
  function Visit(c: State, number: u64, tip: TipCursor): (d: State)
    requires Valid(c)
    ensures Valid(d)
  {
    AdvanceKeepsReady(c, BlockInfo(0, number, 0, 0), tip);
    Advance(c, BlockInfo(0, number, 0, 0), tip)
  }

  /** What a visit to an L1 block not yet cached does to the size of the cache. */
  lemma VisitSize(c: State, number: u64, tip: TipCursor)
    requires Valid(c) && number !in c.tips
    ensures var d := Visit(c, number, tip);
            && d.capacity == c.capacity
            && d.origins == (if Full(c) && c.origins != [] then c.origins[1..] else c.origins) + [number]
            && d.tips.Keys == Survivors(c).Keys + {number}
            && |d.tips| == |c.tips| + if Full(c) && c.origins != [] && c.origins[0] in c.tips then 0 else 1
  {
    var d := Visit(c, number, tip);
    assert d.tips.Keys == Survivors(c).Keys + {number};
    if Full(c) && c.origins != [] {
      assert Survivors(c).Keys == c.tips.Keys - {c.origins[0]};
    }
  }

  /** Visits to `numbers`, one after the other. */
  function VisitAll(c: State, numbers: seq<u64>, tip: TipCursor): State
    requires Valid(c)
    decreases |numbers|
  {
    if numbers == [] then c else VisitAll(Visit(c, numbers[0], tip), numbers[1..], tip)
  }

  lemma {:induction false} VisitAllConcat(c: State, a: seq<u64>, b: seq<u64>, tip: TipCursor)
    requires Valid(c)
    ensures Valid(VisitAll(c, a, tip))
    ensures VisitAll(c, a + b, tip) == VisitAll(VisitAll(c, a, tip), b, tip)
    decreases |a|
  {
    hide Visit, Valid;
    if a == [] {
      assert a + b == b;
    } else {
      assert (a + b)[1..] == a[1..] + b;
      VisitAllConcat(Visit(c, a[0], tip), a[1..], b, tip);
    }
  }

  predicate Ascending(numbers: seq<u64>) {
    forall i, j | 0 <= i < j < |numbers| :: numbers[i] < numbers[j]
  }

  /** While there is room, each new L1 block adds one entry and the front of the eviction queue stays put. */
  lemma {:induction false} RoomKeepsFront(c: State, low: u64, numbers: seq<u64>, tip: TipCursor)
    requires Valid(c) && Ascending([low] + numbers)
    requires forall k | k in c.tips :: k <= low
    requires |c.tips| + |numbers| <= c.capacity
    ensures var d := VisitAll(c, numbers, tip);
            && Valid(d) && d.capacity == c.capacity
            && |d.tips| == |c.tips| + |numbers|
            && c.origins <= d.origins
            && c.tips.Keys <= d.tips.Keys
            && (forall k | k in d.tips :: k <= Last([low] + numbers))
    decreases |numbers|
  {
    hide Visit, Valid;
    if numbers != [] {
      var n, rest := numbers[0], numbers[1..];
      assert ([low] + numbers)[0] < ([low] + numbers)[1];
      assert ([low] + numbers)[1..] == [n] + rest;
      VisitSize(c, n, tip);
      var d := Visit(c, n, tip);
      RoomKeepsFront(d, n, rest, tip);
    }
  }

  function Copies(number: u64, k: nat): seq<u64> {
    seq(k, _ => number)
  }

  /** Revisiting a cached L1 block while there is room only queues its name once more. */
  lemma {:induction false} Revisits(c: State, number: u64, k: nat, tip: TipCursor)
    requires Valid(c) && number in c.tips && !Full(c)
    ensures var d := VisitAll(c, Copies(number, k), tip);
            && Valid(d) && d.capacity == c.capacity
            && d.tips.Keys == c.tips.Keys
            && d.origins == c.origins + Copies(number, k)
    decreases k
  {
    if k > 0 {
      var d := Visit(c, number, tip);
      assert d.tips.Keys == c.tips.Keys;
      assert |d.tips.Keys| == |c.tips.Keys|;
      assert Copies(number, k) == [number] + Copies(number, k - 1);
      assert Copies(number, k)[1..] == Copies(number, k - 1);
      hide Visit, Valid;
      Revisits(d, number, k - 1, tip);
    }
  }

  /** The cache is full, knows nothing above `low`, and the first `m` names in its queue are of an evicted entry. */
  predicate Stale(c: State, low: u64, m: nat) {
    && Full(c) && (forall k | k in c.tips :: k <= low)
    && m <= |c.origins|
    && forall i | 0 <= i < m :: c.origins[i] <= low && c.origins[i] !in c.tips
  }

  /** Dropping an evicted name from the queue removes nothing. */
  lemma EmptyEviction(c: State, n: u64, tip: TipCursor)
    requires Valid(c) && Full(c) && n !in c.tips && c.origins != [] && c.origins[0] !in c.tips
    ensures var d := Visit(c, n, tip);
            && d.capacity == c.capacity
            && d.origins == c.origins[1..] + [n]
            && d.tips.Keys == c.tips.Keys + {n} && |d.tips| == |c.tips| + 1
  {
    VisitSize(c, n, tip);
    assert Survivors(c).Keys == c.tips.Keys;
    hide Visit, Valid, Survivors;
  }

  lemma StaleVisit(c: State, low: u64, m: nat, n: u64, tip: TipCursor)
    requires Valid(c) && Stale(c, low, m) && m > 0 && low < n
    ensures Stale(Visit(c, n, tip), n, m - 1) && |Visit(c, n, tip).tips| == |c.tips| + 1
  {
    hide Visit, Valid;
    EmptyEviction(c, n, tip);
    var d := Visit(c, n, tip);
    forall i | 0 <= i < m - 1
      ensures d.origins[i] <= n && d.origins[i] !in d.tips.Keys
    {
      assert d.origins[i] == c.origins[i + 1];
    }
    assert forall k | k in d.tips.Keys :: k <= n;
  }

  /** In a full cache each new L1 block that meets an evicted name at the front of the queue adds one entry. */
  lemma {:induction false} StaleEvictions(c: State, low: u64, numbers: seq<u64>, tip: TipCursor)
    requires Valid(c) && Stale(c, low, |numbers|) && Ascending([low] + numbers)
    ensures |VisitAll(c, numbers, tip).tips| == |c.tips| + |numbers|
    decreases |numbers|
  {
    hide Visit, Valid, Stale;
    if numbers != [] {
      var n, rest := numbers[0], numbers[1..];
      assert ([low] + numbers)[0] < ([low] + numbers)[1];
      assert ([low] + numbers)[1..] == [n] + rest;
      StaleVisit(c, low, |numbers|, n, tip);
      StaleEvictions(Visit(c, n, tip), n, rest, tip);
    }
  }

  /**
   * The documented memory bound fails by any amount, for every channel timeout: after the start and `k` further tips at
   * its own L1 block, tips at `capacity + 1 + k` new L1 blocks leave `1 + k` more entries than the capacity.
   */
  lemma CapacityExceeded(channelTimeout: u64, origin: BlockInfo, k: nat, numbers: seq<u64>, tip: TipCursor)
    requires |numbers| == channelTimeout + 6 + k && Ascending([origin.number] + numbers)
    ensures var c := Start(channelTimeout, origin, tip);
            && Ready(c) && c.capacity == channelTimeout + 5
            && |VisitAll(c, Copies(origin.number, k) + numbers, tip).tips| == c.capacity + 1 + k
  {
    hide Visit, VisitAll, Start;
    var o := origin.number;
    var c := Start(channelTimeout, origin, tip);
    StartShowsTip(channelTimeout, origin, tip);
    StartQueue(channelTimeout, origin, tip);
    Revisits(c, o, k, tip);
    var d := VisitAll(c, Copies(o, k), tip);
    assert |d.tips.Keys| == 1;
    VisitAllConcat(c, Copies(o, k), numbers, tip);
    Overflow(d, o, k + 2, numbers, tip);
  }

  /** A cache of one entry that is queued `m` times outgrows its capacity by `m - 1`. */
  lemma Overflow(c: State, o: u64, m: nat, numbers: seq<u64>, tip: TipCursor)
    requires Valid(c) && c.tips.Keys == {o} && |c.tips| == 1 && c.capacity >= 1
    requires m >= 1 && c.origins == Copies(o, m)
    requires |numbers| == c.capacity + m - 1 && Ascending([o] + numbers)
    ensures |VisitAll(c, numbers, tip).tips| == c.capacity + m - 1
  {
    hide Visit, VisitAll, Valid;
    var room := c.capacity - 1;
    var all := [o] + numbers;
    var front, a, rest := numbers[..room], numbers[room], numbers[room + 1..];
    assert [o] + front == all[..room + 1];
    RoomKeepsFront(c, o, front, tip);
    var d := VisitAll(c, front, tip);
    assert all[room] < all[room + 1] && all[0] < all[room + 1];
    assert Last([o] + front) == all[room];
    VisitSize(d, a, tip);
    var e := Visit(d, a, tip);
    assert [a] + rest == all[room + 1..];
    assert forall i | 0 <= i < m :: d.origins[i] == c.origins[i] == o;
    StaleEvictions(e, a, rest, tip);
    assert numbers == front + ([a] + rest);
    VisitAllConcat(c, front, [a] + rest, tip);
    VisitAllConcat(d, [a], rest, tip);
    assert VisitAll(d, [a], tip) == e by {
      VisitOne(d, a, tip);
    }
  }

  lemma VisitOne(c: State, a: u64, tip: TipCursor)
    requires Valid(c)
    ensures VisitAll(c, [a], tip) == Visit(c, a, tip)
  {
    hide Visit, Valid;
    assert [a][1..] == [];
  }

  lemma StartQueue(channelTimeout: u64, origin: BlockInfo, tip: TipCursor)
    ensures var c := Start(channelTimeout, origin, tip);
            && c.origins == [origin.number, origin.number]
            && c.tips.Keys == {origin.number} && |c.tips| == 1 && c.capacity == channelTimeout + 5
  {
    var c := Start(channelTimeout, origin, tip);
    assert c.tips.Keys == {origin.number};
  }

  class PipelineCursor {
    const capacity: nat
    const channelTimeout: u64
    var origin: BlockInfo
    var origins: seq<u64>
    var originInfos: map<u64, BlockInfo>
    var tips: map<u64, TipCursor>

    function Value(): State
      reads this
    {
      State(capacity, channelTimeout, origin, origins, originInfos, tips)
    }

    constructor (timeout: u64, start: BlockInfo)
      ensures Value() == Fresh(timeout, start)
      ensures Valid(Value())
    {
      capacity := timeout + 5;
      channelTimeout := timeout;
      origin := start;
      origins := [start.number];
      originInfos := map[start.number := start];
      tips := map[];
    }

    method GetTip() returns (tip: TipCursor)
      requires Ready(Value())
      ensures tip == Tip(Value())
    {
      tip := tips[MaxKey(tips.Keys)];
    }

    method AdvanceTo(next: BlockInfo, tip: TipCursor)
      requires Valid(Value())
      modifies this
      ensures Value() == Advance(old(Value()), next, tip)
      ensures Ready(Value())
    {
      AdvanceKeepsReady(Value(), next, tip);
      if |tips| >= capacity {
        FullHasOldest(Value());
        var key := origins[0];
        origins := origins[1..];
        tips := tips - {key};
      }
      origin := next;
      origins := origins + [next.number];
      originInfos := originInfos[next.number := next];
      tips := tips[next.number := tip];
    }
  }
}
