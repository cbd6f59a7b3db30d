/** What the handler guarantees over whole streams of messages. */
module GossipTheorems {
  import opened Prelude
  import opened Forks
  import opened Text
  import opened Gossip

  // ---------------------------------------------------------------------------------------------
  // What each verdict means

  /** The stateless part of block validation: time window, block hash and version-specific fields. */
  predicate WellFormed(rules: Rules, e: Envelope, now: u64) {
    && 60 <= now <= U64_MAX - 5
    && now - 60 <= e.payload.timestamp <= now + 5
    && rules.intoBlock(e.payload).Ok?
    && rules.hashHeader(rules.intoBlock(e.payload).value, e.parentBeaconRoot,
                        IsthmusActive(rules.forks, e.payload.timestamp)) == e.payload.blockHash
    && (e.payload.version.V3? || e.payload.version.V4? ==>
          && (e.payload.blobGasUsed == 0 || JovianActive(rules.forks, e.payload.timestamp))
          && e.payload.excessBlobGas == 0
          && e.parentBeaconRoot.Some?)
  }

  function HashesAt(seen: Seen, height: u64): set<Hash> {
    if height in seen then seen[height] else {}
  }

  predicate Signed(rules: Rules, e: Envelope, signer: Address) {
    rules.recover(e.signature, rules.signatureMessage(e.payloadHash, rules.chainId)) == Some(signer)
  }

  lemma TimeWindow(payload: Payload, now: u64)
    ensures CheckTime(payload, now).None?
       <==> 60 <= now <= U64_MAX - 5 && now - 60 <= payload.timestamp <= now + 5
  {
    if now < 60 {
      assert Wrap(now - 60) == now - 60 + 0x1_0000_0000_0000_0000;
    } else {
      assert Wrap(now - 60) == now - 60;
    }
    if now > U64_MAX - 5 {
      assert Wrap(now + 5) == now + 5 - 0x1_0000_0000_0000_0000;
    } else {
      assert Wrap(now + 5) == now + 5;
    }
  }

  /** The stateless checks pass exactly on well-formed blocks, and none of them reports a block as seen. */
  lemma StatelessExact(rules: Rules, e: Envelope, now: u64)
    ensures CheckTime(e.payload, now).None? && CheckHash(rules, e).None? && CheckVersion(rules, e).None?
       <==> WellFormed(rules, e, now)
    ensures CheckTime(e.payload, now).Some? ==> !CheckTime(e.payload, now).value.BlockSeen?
    ensures CheckHash(rules, e).Some? ==> !CheckHash(rules, e).value.BlockSeen?
    ensures CheckVersion(rules, e).Some? ==> !CheckVersion(rules, e).value.BlockSeen?
  {
    TimeWindow(e.payload, now);
    hide Wrap, JovianActive, IsthmusActive;
  }

  /** The block's height has at most five cached blocks, and this one is (not) among them. */
  predicate NewTo(seen: Seen, payload: Payload) {
    |HashesAt(seen, payload.blockNumber)| <= 5
    && payload.blockHash !in HashesAt(seen, payload.blockNumber)
  }

  predicate KnownTo(seen: Seen, payload: Payload) {
    |HashesAt(seen, payload.blockNumber)| <= 5
    && payload.blockHash in HashesAt(seen, payload.blockNumber)
  }

  lemma SeenExact(seen: Seen, payload: Payload)
    ensures CheckSeen(seen, payload.blockNumber, payload.blockHash).None? <==> NewTo(seen, payload)
    ensures var r := CheckSeen(seen, payload.blockNumber, payload.blockHash);
            r.Some? && r.value.BlockSeen? <==> KnownTo(seen, payload)
  {
  }

  lemma BlockVerdict(rules: Rules, seen: Seen, e: Envelope, now: u64, signer: Address)
    ensures Verdict(rules, seen, e, now, signer).None?
       <==> WellFormed(rules, e, now) && NewTo(seen, e.payload) && Signed(rules, e, signer)
    ensures var r := Verdict(rules, seen, e, now, signer);
            r.Some? && r.value.BlockSeen? <==> WellFormed(rules, e, now) && KnownTo(seen, e.payload)
  {
    StatelessExact(rules, e, now);
    SeenExact(seen, e.payload);
    hide CheckTime, CheckHash, CheckVersion, CheckSeen, WellFormed, NewTo, KnownTo;
  }

  /**
   * The verdict on a message, at every clock reading: it is accepted exactly when it decodes, is well formed, is not
   * cached, its height has at most five cached blocks and the signer signed it; it is ignored exactly when it is well
   * formed and already cached at a height that is not over-full. Only acceptance emits a payload or changes the cache.
   */
  lemma VerdictExact(rules: Rules, seen: Seen, d: Delivery)
    ensures Handle(rules, seen, d).acceptance.Accept?
       <==> (&& Decoded(rules, d).Some?
             && WellFormed(rules, Decoded(rules, d).value, d.now)
             && NewTo(seen, Decoded(rules, d).value.payload)
             && Signed(rules, Decoded(rules, d).value, d.signer))
    ensures Handle(rules, seen, d).acceptance.Ignore?
       <==> (&& Decoded(rules, d).Some?
             && WellFormed(rules, Decoded(rules, d).value, d.now)
             && KnownTo(seen, Decoded(rules, d).value.payload))
    ensures Handle(rules, seen, d).payload
         == if Handle(rules, seen, d).acceptance.Accept? then Decoded(rules, d) else None
    ensures !Handle(rules, seen, d).acceptance.Accept? ==> Handle(rules, seen, d).seen == seen
  {
    hide Verdict, WellFormed, NewTo, KnownTo, Signed, Remember, Decoded;
    if Decoded(rules, d).Some? {
      BlockVerdict(rules, seen, Decoded(rules, d).value, d.now, d.signer);
    }
  }

  /** What a reported reason says of the block. */
  predicate Blamed(rules: Rules, seen: Seen, e: Envelope, now: u64, signer: Address, reason: BlockInvalid) {
    var block := rules.intoBlock(e.payload);
    var message := rules.signatureMessage(e.payloadHash, rules.chainId);
    match reason
    case Timestamp(current, received) => current == now && received == e.payload.timestamp
    case InvalidBlock(code) => block == Err(code)
    case BlockHash(expected, computed) =>
      && block.Ok? && expected == e.payload.blockHash && expected != computed
      && computed == rules.hashHeader(block.value, e.parentBeaconRoot,
                                      IsthmusActive(rules.forks, e.payload.timestamp))
    case BlobGasUsed => e.payload.blobGasUsed != 0 && !JovianActive(rules.forks, e.payload.timestamp)
    case ExcessBlobGas => e.payload.excessBlobGas != 0
    case ParentBeaconRoot => e.parentBeaconRoot == None
    case TooManyBlocks(height) => height == e.payload.blockNumber && |HashesAt(seen, height)| > 5
    case BlockSeen(hash) => hash == e.payload.blockHash && hash in HashesAt(seen, e.payload.blockNumber)
    case Signature => rules.recover(e.signature, message) == None
    case Signer(recovered, wanted) =>
      rules.recover(e.signature, message) == Some(recovered) && wanted == signer && recovered != wanted
  }

  /** The reason a block is turned away for is true of it. */
  lemma VerdictReason(rules: Rules, seen: Seen, e: Envelope, now: u64, signer: Address)
    requires Verdict(rules, seen, e, now, signer).Some?
    ensures Blamed(rules, seen, e, now, signer, Verdict(rules, seen, e, now, signer).value)
  {
    hide Wrap, IsthmusActive, JovianActive;
  }

  /** The four topics of a chain are told apart, so a message is decoded with the version it was published as. */
  lemma TopicSelectsVersion(chainId: u64, v: Version)
    ensures TopicVersion(chainId, Topic(chainId, v)) == Some(v)
  {
    TopicDigit(chainId, V1);
    TopicDigit(chainId, V2);
    TopicDigit(chainId, V3);
    TopicDigit(chainId, V4);
  }

  /** A message is decoded with a version exactly when it came under that version's topic, and rejected otherwise. */
  lemma DecodedIff(rules: Rules, d: Delivery, e: Envelope)
    ensures Decoded(rules, d) == Some(e)
       <==> exists v :: d.topic == Topic(rules.chainId, v) && rules.decode(v, d.data) == Ok(e)
  {
    hide Topic;
    if Decoded(rules, d) == Some(e) {
      assert d.topic == Topic(rules.chainId, TopicVersion(rules.chainId, d.topic).value);
    }
    if exists v :: d.topic == Topic(rules.chainId, v) && rules.decode(v, d.data) == Ok(e) {
      var v :| d.topic == Topic(rules.chainId, v) && rules.decode(v, d.data) == Ok(e);
      TopicSelectsVersion(rules.chainId, v);
    }
  }

  /** The text of a topic: the chain id in plain decimal, and the version counted from zero. */
  lemma TopicText(chainId: u64, v: Version) returns (digits: string)
    ensures var version := match v case V1 => '0' case V2 => '1' case V3 => '2' case V4 => '3';
            Topic(chainId, v) == "/optimism/" + digits + "/" + [version] + "/blocks"
    ensures digits != "" && AllDigits(digits) && DecimalValue(digits) == chainId
    ensures chainId > 0 ==> digits[0] != '0'
  {
    digits := Decimal(chainId);
    DecimalRoundTrip(chainId);
    DecimalShape(chainId);
    hide Decimal, AllDigits, DecimalValue;
  }

  lemma TopicDigit(chainId: u64, v: Version)
    ensures var k := |"/optimism/" + Decimal(chainId) + "/"|;
            && |Topic(chainId, v)| > k
            && Topic(chainId, v)[k] == match v case V1 => '0' case V2 => '1' case V3 => '2' case V4 => '3'
  {
  }

  /** The version a published block is decoded with follows the fork schedule of its own timestamp. */
  lemma PublishedVersion(rules: Rules, timestamp: u64)
    ensures var v := TopicVersion(rules.chainId, TopicAt(rules, timestamp));
            && v.Some?
            && (v.value.V4? <==> IsthmusActive(rules.forks, timestamp))
            && (v.value.V3? || v.value.V4? <==> EcotoneActive(rules.forks, timestamp))
            && (!v.value.V1? <==> CanyonActive(rules.forks, timestamp))
  {
    TopicSelectsVersion(rules.chainId, V1);
    TopicSelectsVersion(rules.chainId, V2);
    TopicSelectsVersion(rules.chainId, V3);
    TopicSelectsVersion(rules.chainId, V4);
  }

  // ---------------------------------------------------------------------------------------------
  // The cache against the full history of accepted blocks

  datatype Block = Block(height: u64, hash: Hash)

  /** The accepted blocks, oldest first. */
  type Log = seq<Block>

  function Cache(log: Log): Seen {
    if log == [] then map[] else Remember(Cache(DropLast(log)), Last(log).height, Last(log).hash)
  }

  /** Every block was new to the cache when it was accepted. */
  predicate Admitted(log: Log) {
    log == []
    || (Admitted(DropLast(log)) && CheckSeen(Cache(DropLast(log)), Last(log).height, Last(log).hash).None?)
  }

  /** Every hash ever accepted at a height. */
  function History(log: Log, height: u64): set<Hash> {
    if log == [] then {}
    else History(DropLast(log), height) + if Last(log).height == height then {Last(log).hash} else {}
  }

  /** The height that accepting the last block of the log pushed out. */
  function LastEvicted(log: Log): Option<nat>
    requires log != []
  {
    Evicted(Cache(DropLast(log)), Last(log).height, Last(log).hash)
  }

  /** The highest height ever pushed out; -1 before the first. */
  function HighestEvicted(log: Log): int {
    if log == [] then -1
    else
      var before := HighestEvicted(DropLast(log));
      match LastEvicted(log)
      case Some(h) => if h > before then h else before
      case None => before
  }

  predicate AllAbove(seen: Seen, height: nat) {
    forall h | h in seen :: h > height
  }

  lemma InsertKeys(seen: Seen, height: u64, hash: Hash)
    ensures var full := Insert(seen, height, hash);
            && full.Keys == seen.Keys + {height}
            && |full| == |full.Keys| == |seen| + if height in seen then 0 else 1
  {
    var full := Insert(seen, height, hash);
    assert full.Keys == seen.Keys + {height};
    assert |seen| == |seen.Keys|;
    if height in seen {
      assert full.Keys == seen.Keys;
    }
  }

  /** What is left once the lowest height has been taken out. */
  lemma LowestOut(full: Seen, lowest: u64)
    requires lowest in full && forall h | h in full :: lowest <= h
    ensures |full - {lowest}| == |full| - 1 && AllAbove(full - {lowest}, lowest)
  {
    var left := full - {lowest};
    assert left.Keys == full.Keys - {lowest};
    assert |left| == |left.Keys| && |full| == |full.Keys|;
  }

  /** A height is evicted exactly by a block at a new height with 999 heights cached, and lies below the 999 left. */
  lemma RememberKeys(seen: Seen, height: u64, hash: Hash)
    requires |seen| <= 999
    ensures |Remember(seen, height, hash)| <= 999
    ensures Evicted(seen, height, hash).Some? <==> |seen| == 999 && height !in seen
    ensures var out := Evicted(seen, height, hash);
            out.Some? ==>
              && |Remember(seen, height, hash)| == 999
              && AllAbove(Remember(seen, height, hash), out.value)
  {
    InsertKeys(seen, height, hash);
    var full := Insert(seen, height, hash);
    var out := Evicted(seen, height, hash);
    if out.Some? {
      assert out.value in full.Keys && forall h | h in full.Keys :: out.value <= h;
      LowestOut(full, out.value);
    }
    hide Insert, AllAbove;
  }

  /** The hashes cached at a height after a block: none if it was evicted, else those before and perhaps the new one. */
  lemma RememberAt(seen: Seen, height: u64, hash: Hash, h: u64)
    ensures HashesAt(Remember(seen, height, hash), h)
         == if Evicted(seen, height, hash) == Some(h) then {}
            else HashesAt(seen, h) + if h == height then {hash} else {}
    ensures h in Remember(seen, height, hash)
       <==> (h == height || h in seen) && Evicted(seen, height, hash) != Some(h)
  {
    var full := Insert(seen, height, hash);
    hide Evicted;
    assert h in full <==> h == height || h in seen;
    assert HashesAt(full, h) == HashesAt(seen, h) + if h == height then {hash} else {};
  }

  /** The cache never holds more than 999 heights, nor fewer than one or more than six hashes at any of them. */
  lemma {:induction false} CacheBounded(log: Log)
    requires Admitted(log)
    ensures |Cache(log)| <= 999
    ensures forall h | h in Cache(log) :: 1 <= |Cache(log)[h]| <= 6
    decreases |log|
  {
    if log != [] {
      var before, b := Cache(DropLast(log)), Last(log);
      CacheBounded(DropLast(log));
      RememberKeys(before, b.height, b.hash);
      hide Remember, Evicted;
      forall h | h in Cache(log)
        ensures 1 <= |Cache(log)[h]| <= 6
      {
        RememberAt(before, b.height, b.hash, h);
        if h == b.height {
          assert |HashesAt(before, h) + {b.hash}| <= |HashesAt(before, h)| + 1;
          assert b.hash in Cache(log)[h];
        }
      }
    }
  }

  function Heights(log: Log): set<u64> {
    set b | b in log :: b.height
  }

  lemma {:induction false} CachedHeights(log: Log)
    ensures Cache(log).Keys <= Heights(log)
    decreases |log|
  {
    if log != [] {
      CachedHeights(DropLast(log));
      var b := Last(log);
      assert forall x | x in DropLast(log) :: x in log;
      assert b in log;
      hide Remember, Evicted;
      forall h | h in Cache(log)
        ensures h in Heights(log)
      {
        RememberAt(Cache(DropLast(log)), b.height, b.hash, h);
      }
    }
  }

  lemma HeightsGrow(log: Log)
    requires log != []
    ensures Heights(log) == Heights(DropLast(log)) + {Last(log).height}
    ensures |Heights(DropLast(log))| <= |Heights(log)|
  {
    var before, b := DropLast(log), Last(log);
    assert log == before + [b];
    assert Heights(log) == Heights(before) + {b.height};
    Fewer(Heights(before), Heights(log));
  }

  /** Accepting a block at one of no more than 999 heights evicts nothing. */
  lemma RoomForAll(log: Log)
    requires Admitted(log) && log != [] && |Heights(log)| <= 999
    ensures LastEvicted(log).None?
  {
    var before, b := DropLast(log), Last(log);
    HeightsGrow(log);
    CacheBounded(before);
    CachedHeights(before);
    RememberKeys(Cache(before), b.height, b.hash);
    hide Heights, Remember, Evicted, Cache, Admitted;
    if LastEvicted(log).Some? {
      assert |Cache(before).Keys + {b.height}| == 1000;
      Fewer(Cache(before).Keys + {b.height}, Heights(log));
      assert false;
    }
  }

  lemma {:induction false} NoneEvicted(log: Log)
    requires Admitted(log) && |Heights(log)| <= 999
    ensures HighestEvicted(log) == -1
    decreases |log|
  {
    if log != [] {
      HeightsGrow(log);
      RoomForAll(log);
      hide Heights, LastEvicted, CheckSeen, Cache;
      NoneEvicted(DropLast(log));
    }
  }

  /** While the accepted blocks lie at no more than 999 heights nothing is evicted: the cache is the whole history. */
  lemma WholeHistory(log: Log, h: u64)
    requires Admitted(log) && |Heights(log)| <= 999
    ensures HighestEvicted(log) == -1 && HashesAt(Cache(log), h) == History(log, h)
  {
    NoneEvicted(log);
    CacheMatchesHistory(log, h);
  }

  lemma {:induction false} Fewer(a: set<u64>, b: set<u64>)
    requires a <= b
    ensures |a| <= |b|
  {
    assert b == a + (b - a);
  }

  /** The limit of five is passed at a height exactly by accepting a block there with five already cached. */
  lemma PassesFiveIff(log: Log, h: u64)
    requires Admitted(log) && log != []
    ensures |HashesAt(Cache(DropLast(log)), h)| <= 5 < |HashesAt(Cache(log), h)|
       <==> (&& |HashesAt(Cache(DropLast(log)), h)| == 5
             && Last(log).height == h && LastEvicted(log) != Some(h))
  {
    var before, b := Cache(DropLast(log)), Last(log);
    RememberAt(before, b.height, b.hash, h);
    hide Remember, Evicted;
    if h == b.height {
      assert b.hash !in HashesAt(before, h);
      assert |HashesAt(before, h) + {b.hash}| == |HashesAt(before, h)| + 1;
    }
  }

  /** The numbers below `n`. */
  function Below(n: nat): (s: set<Hash>)
    ensures |s| == n && forall x | x in s :: x < n
  {
    if n == 0 then {} else Below(n - 1) + {n - 1}
  }

  /** Blocks 0 to n - 1, all at one height. */
  function AtOneHeight(height: u64, n: nat): Log {
    if n == 0 then [] else AtOneHeight(height, n - 1) + [Block(height, n - 1)]
  }

  lemma NoEviction(seen: Seen, height: u64, hash: Hash)
    requires seen.Keys <= {height}
    ensures Evicted(seen, height, hash) == None
  {
    var full := Insert(seen, height, hash);
    assert full.Keys == {height};
    assert |full| == |full.Keys|;
  }

  predicate Filled(seen: Seen, height: u64, n: nat) {
    seen.Keys <= {height} && HashesAt(seen, height) == Below(n)
  }

  lemma FillOne(seen: Seen, height: u64, n: nat)
    requires n <= 5 && Filled(seen, height, n)
    ensures CheckSeen(seen, height, n).None? && Filled(Remember(seen, height, n), height, n + 1)
  {
    assert Below(n + 1) == Below(n) + {n};
    hide Below;
    assert CheckSeen(seen, height, n).None?;
    NoEviction(seen, height, n);
    RememberAt(seen, height, n, height);
    forall h | h in Remember(seen, height, n)
      ensures h == height
    {
      RememberAt(seen, height, n, h);
    }
    hide Remember, Evicted, CheckSeen;
  }

  lemma Accepting(log: Log, b: Block)
    requires Admitted(log) && CheckSeen(Cache(log), b.height, b.hash).None?
    ensures Admitted(log + [b]) && Cache(log + [b]) == Remember(Cache(log), b.height, b.hash)
  {
    assert DropLast(log + [b]) == log;
    hide Remember, CheckSeen;
  }

  lemma {:induction false} FillHeight(height: u64, n: nat)
    requires n <= 6
    ensures Admitted(AtOneHeight(height, n)) && Filled(Cache(AtOneHeight(height, n)), height, n)
  {
    if n > 0 {
      hide Remember, CheckSeen, Filled, Cache, Admitted;
      FillHeight(height, n - 1);
      var before := AtOneHeight(height, n - 1);
      FillOne(Cache(before), height, n - 1);
      Accepting(before, Block(height, n - 1));
    }
  }

  /** Six blocks at one height are accepted and cached, for every height: the bound of six is reached. */
  lemma SixAtOneHeight(height: u64)
    ensures Admitted(AtOneHeight(height, 6)) && height in Cache(AtOneHeight(height, 6))
    ensures |Cache(AtOneHeight(height, 6))[height]| == 6
  {
    FillHeight(height, 6);
    hide Cache, Admitted, AtOneHeight, Below;
  }

  /**
   * Above the highest height ever evicted the pruned cache is the full history; below it the cache never claims a
   * block that was not accepted.
   */
  lemma {:induction false} CacheMatchesHistory(log: Log, h: u64)
    requires Admitted(log)
    ensures h > HighestEvicted(log) ==> HashesAt(Cache(log), h) == History(log, h)
    ensures h > HighestEvicted(log) ==> (h in Cache(log) <==> History(log, h) != {})
    ensures HashesAt(Cache(log), h) <= History(log, h)
    decreases |log|
  {
    if log != [] {
      CacheMatchesHistory(DropLast(log), h);
      RememberAt(Cache(DropLast(log)), Last(log).height, Last(log).hash, h);
      hide Remember, Evicted, CheckSeen;
    }
  }

  /** A cached block stays cached until its height is evicted. */
  lemma {:induction false} EvictionBetween(log: Log, i: nat, j: nat) returns (k: nat)
    requires Admitted(log) && i < j < |log| && log[i] == log[j]
    ensures i <= k < j
    ensures LastEvicted(log[..k + 1]) == Some(log[i].height)
    decreases j
  {
    AdmittedPrefix(log, j);
    k := StillCached(log, i, j);
    hide Cache;
    if k == j {
      AdmittedAt(log, j);
      assert false;
    }
  }

  lemma {:induction false} AdmittedPrefix(log: Log, n: nat)
    requires Admitted(log) && n <= |log|
    ensures Admitted(log[..n])
    decreases |log|
  {
    hide CheckSeen, Cache;
    if n < |log| {
      AdmittedPrefix(DropLast(log), n);
      assert DropLast(log)[..n] == log[..n];
    } else {
      assert log[..n] == log;
    }
  }

  lemma AdmittedAt(log: Log, j: nat)
    requires Admitted(log) && j < |log|
    ensures CheckSeen(Cache(log[..j]), log[j].height, log[j].hash).None?
  {
    AdmittedPrefix(log, j + 1);
    assert DropLast(log[..j + 1]) == log[..j];
  }

  /** An eviction of the height of block `i` at or after `i`, or `m` when its hash is cached all along. */
  lemma {:induction false} StillCached(log: Log, i: nat, m: nat) returns (k: nat)
    requires Admitted(log) && i < m <= |log|
    ensures i <= k <= m
    ensures k < m ==> LastEvicted(log[..k + 1]) == Some(log[i].height)
    ensures k == m ==> log[i].hash in HashesAt(Cache(log[..m]), log[i].height)
    decreases m
  {
    hide Remember, Evicted, Admitted;
    var b := log[m - 1];
    var before := log[..m - 1];
    assert DropLast(log[..m]) == before && Last(log[..m]) == b;
    RememberAt(Cache(before), b.height, b.hash, log[i].height);
    if i < m - 1 {
      k := StillCached(log, i, m - 1);
    } else {
      k := m - 1;
    }
    if k == m - 1 && LastEvicted(log[..m]) != Some(log[i].height) {
      k := m;
    }
  }

  /** Accepting block `k` pushed `height` out while 999 strictly greater heights were cached. */
  predicate EvictsAt(log: Log, k: nat, height: u64) {
    && k < |log|
    && LastEvicted(log[..k + 1]) == Some(height)
    && |Cache(log[..k + 1])| == 999
    && AllAbove(Cache(log[..k + 1]), height)
  }

  /** A block is accepted a second time only if, in between, its height was evicted from a full cache. */
  lemma ReacceptedAfterEviction(log: Log, i: nat, j: nat)
    requires Admitted(log) && i < j < |log| && log[i] == log[j]
    ensures exists k :: i <= k < j && EvictsAt(log, k, log[i].height)
  {
    var k := EvictionBetween(log, i, j);
    var upto := log[..k + 1];
    AdmittedPrefix(log, k + 1);
    AdmittedPrefix(upto, k);
    assert DropLast(upto) == upto[..k];
    CacheBounded(DropLast(upto));
    RememberKeys(Cache(DropLast(upto)), Last(upto).height, Last(upto).hash);
    assert EvictsAt(log, k, log[i].height);
  }

  // ---------------------------------------------------------------------------------------------
  // Streams of messages

  datatype Stream = Stream(seen: Seen, emitted: seq<Envelope>)

  function DeliverAll(rules: Rules, seen: Seen, ds: seq<Delivery>): Stream {
    if ds == [] then Stream(seen, [])
    else
      var before := DeliverAll(rules, seen, DropLast(ds));
      var h := Handle(rules, before.seen, Last(ds));
      Stream(h.seen, before.emitted + if h.payload.Some? then [h.payload.value] else [])
  }

  function BlocksOf(emitted: seq<Envelope>): Log {
    seq(|emitted|, i requires 0 <= i < |emitted| => Block(emitted[i].payload.blockNumber, emitted[i].payload.blockHash))
  }

  /** A message changes the cache only by being accepted, and then its block was new to it. */
  lemma HandleRemembers(rules: Rules, seen: Seen, d: Delivery)
    ensures var h := Handle(rules, seen, d);
            && (h.payload.None? ==> h.seen == seen)
            && (h.payload.Some? ==>
                  var b := h.payload.value.payload;
                  && h.seen == Remember(seen, b.blockNumber, b.blockHash)
                  && CheckSeen(seen, b.blockNumber, b.blockHash).None?)
  {
    hide Decoded, Remember, CheckTime, CheckHash, CheckVersion, CheckSigner, CheckSeen;
  }

  /** A handler that started empty holds the pruned cache of exactly the payloads it emitted, each new when accepted. */
  lemma {:induction false} StreamIsLog(rules: Rules, ds: seq<Delivery>)
    ensures var out := DeliverAll(rules, map[], ds);
            && out.seen == Cache(BlocksOf(out.emitted))
            && Admitted(BlocksOf(out.emitted))
    decreases |ds|
  {
    if ds != [] {
      StreamIsLog(rules, DropLast(ds));
      var before := DeliverAll(rules, map[], DropLast(ds));
      var h := Handle(rules, before.seen, Last(ds));
      HandleRemembers(rules, before.seen, Last(ds));
      hide Handle, Remember, CheckSeen, BlocksOf;
      if h.payload.Some? {
        BlocksOfAppend(before.emitted, h.payload.value);
      } else {
        assert before.emitted + [] == before.emitted;
      }
    }
  }

  lemma BlocksOfAppend(emitted: seq<Envelope>, e: Envelope)
    ensures var log := BlocksOf(emitted + [e]);
            && log != []
            && DropLast(log) == BlocksOf(emitted)
            && Last(log) == Block(e.payload.blockNumber, e.payload.blockHash)
  {
  }

  /**
   * The handler over any stream from empty: bounded, equal to the accepted history above the highest evicted height,
   * and never accepting a block twice without evicting its height in between.
   */
  lemma HandlerGuarantee(rules: Rules, ds: seq<Delivery>)
    ensures var out := DeliverAll(rules, map[], ds); var log := BlocksOf(out.emitted);
            && |out.seen| <= 999
            && (forall h | h in out.seen :: 1 <= |out.seen[h]| <= 6)
            && (forall h: u64 | h > HighestEvicted(log) :: HashesAt(out.seen, h) == History(log, h))
            && (forall i, j | 0 <= i < j < |log| && log[i] == log[j] ::
                  exists k :: i <= k < j && EvictsAt(log, k, log[i].height))
  {
    StreamIsLog(rules, ds);
    var out := DeliverAll(rules, map[], ds);
    var log := BlocksOf(out.emitted);
    CacheBounded(log);
    hide DeliverAll, BlocksOf, Cache, EvictsAt, HighestEvicted, History, Admitted;
    forall h: u64 | h > HighestEvicted(log)
      ensures HashesAt(out.seen, h) == History(log, h)
    {
      CacheMatchesHistory(log, h);
    }
    forall i, j | 0 <= i < j < |log| && log[i] == log[j]
      ensures exists k :: i <= k < j && EvictsAt(log, k, log[i].height)
    {
      ReacceptedAfterEviction(log, i, j);
    }
  }

  /** The deliveries whose flag is set, in order. */
  function Keep(ds: seq<Delivery>, flags: seq<bool>): seq<Delivery>
    requires |ds| == |flags|
  {
    if ds == [] then []
    else Keep(DropLast(ds), DropLast(flags)) + if Last(flags) then [Last(ds)] else []
  }

  /** Only messages that were not accepted are dropped. */
  predicate DropsUnaccepted(rules: Rules, seen: Seen, ds: seq<Delivery>, flags: seq<bool>)
    requires |ds| == |flags|
  {
    ds == []
    || (&& DropsUnaccepted(rules, seen, DropLast(ds), DropLast(flags))
        && (Last(flags) || !Handle(rules, DeliverAll(rules, seen, DropLast(ds)).seen, Last(ds)).acceptance.Accept?))
  }

  /**
   * Rejected and ignored messages never influence later decisions: dropping any of them from any stream leaves the
   * emitted payloads and the final cache as they were.
   */
  lemma {:induction false} UnacceptedLeaveNoTrace(rules: Rules, seen: Seen, ds: seq<Delivery>, flags: seq<bool>)
    requires |ds| == |flags| && DropsUnaccepted(rules, seen, ds, flags)
    ensures DeliverAll(rules, seen, Keep(ds, flags)) == DeliverAll(rules, seen, ds)
    decreases |ds|
  {
    if ds != [] {
      UnacceptedLeaveNoTrace(rules, seen, DropLast(ds), DropLast(flags));
      VerdictExact(rules, DeliverAll(rules, seen, DropLast(ds)).seen, Last(ds));
      hide Handle;
      var kept := Keep(DropLast(ds), DropLast(flags));
      if Last(flags) {
        assert DropLast(kept + [Last(ds)]) == kept;
      } else {
        assert kept + [] == kept;
      }
    }
  }
}
