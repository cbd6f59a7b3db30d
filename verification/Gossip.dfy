/** The gossip block handler: stateless checks on a block, and the bounded cache of blocks already seen. */
module Gossip {
  import opened Prelude
  import opened Forks
  import opened Text

  const SEEN_HASH_CACHE_SIZE: nat := 1000
  const MAX_BLOCKS_TO_KEEP: nat := 5

  type Address = nat

  datatype Version = V1 | V2 | V3 | V4

  datatype Payload = Payload(
    version: Version, timestamp: u64, blockNumber: u64, blockHash: Hash,
    blobGasUsed: u64, excessBlobGas: u64, content: nat)

  datatype Envelope = Envelope(payload: Payload, signature: nat, payloadHash: Hash, parentBeaconRoot: Option<Hash>)

  /** The rollup configuration with the decoding, hashing and signature functions the handler relies on. */
  datatype Rules = Rules(
    chainId: u64,
    forks: HardForks,
    decode: (Version, Bytes) -> Result<Envelope, nat>,
    intoBlock: Payload -> Result<nat, nat>,
    hashHeader: (nat, Option<Hash>, bool) -> Hash,
    signatureMessage: (Hash, u64) -> Hash,
    recover: (nat, Hash) -> Option<Address>)

  datatype BlockInvalid =
    | Timestamp(current: u64, received: u64)
    | InvalidBlock(code: nat)
    | BlockHash(expected: Hash, received': Hash)
    | BlobGasUsed
    | ExcessBlobGas
    | ParentBeaconRoot
    | TooManyBlocks(height: u64)
    | BlockSeen(hash: Hash)
    | Signature
    | Signer(recovered: Address, signer: Address)

  datatype Acceptance = Accept | Ignore | Reject

  /** Block height to the hashes accepted at that height. */
  type Seen = map<u64, set<Hash>>

  // ---------------------------------------------------------------------------------------------
  // Validation of one block

  /** 64-bit wrap-around, as the clock arithmetic of a release build has it. */
  function Wrap(n: int): u64 {
    n % 0x1_0000_0000_0000_0000
  }

  function CheckTime(payload: Payload, now: u64): Option<BlockInvalid> {
    if payload.timestamp > Wrap(now + 5) || payload.timestamp < Wrap(now - 60) then
      Some(Timestamp(now, payload.timestamp))
    else None
  }

  function CheckHash(rules: Rules, e: Envelope): Option<BlockInvalid> {
    match rules.intoBlock(e.payload)
    case Err(code) => Some(InvalidBlock(code))
    case Ok(header) =>
      var received := rules.hashHeader(header, e.parentBeaconRoot, IsthmusActive(rules.forks, e.payload.timestamp));
      if received != e.payload.blockHash then Some(BlockHash(e.payload.blockHash, received)) else None
  }

  function CheckVersion(rules: Rules, e: Envelope): Option<BlockInvalid> {
    if e.payload.version.V1? || e.payload.version.V2? then None
    else if !JovianActive(rules.forks, e.payload.timestamp) && e.payload.blobGasUsed != 0 then Some(BlobGasUsed)
    else if e.payload.excessBlobGas != 0 then Some(ExcessBlobGas)
    else if e.parentBeaconRoot.None? then Some(ParentBeaconRoot)
    else None
  }

  function CheckSeen(seen: Seen, height: u64, hash: Hash): Option<BlockInvalid> {
    if height !in seen then None
    else if |seen[height]| > MAX_BLOCKS_TO_KEEP then Some(TooManyBlocks(height))
    else if hash in seen[height] then Some(BlockSeen(hash))
    else None
  }

  function CheckSigner(rules: Rules, e: Envelope, signer: Address): Option<BlockInvalid> {
    match rules.recover(e.signature, rules.signatureMessage(e.payloadHash, rules.chainId))
    case None => Some(Signature)
    case Some(recovered) => if recovered != signer then Some(Signer(recovered, signer)) else None
  }

  function OrElse(first: Option<BlockInvalid>, second: Option<BlockInvalid>): Option<BlockInvalid> {
    if first.Some? then first else second
  }

  /** The checks in the order they are made. */
  function Verdict(rules: Rules, seen: Seen, e: Envelope, now: u64, signer: Address): Option<BlockInvalid> {
    OrElse(CheckTime(e.payload, now),
           OrElse(CheckHash(rules, e),
                  OrElse(CheckVersion(rules, e),
                         OrElse(CheckSeen(seen, e.payload.blockNumber, e.payload.blockHash),
                                CheckSigner(rules, e, signer)))))
  }

  function Insert(seen: Seen, height: u64, hash: Hash): Seen {
    seen[height := (if height in seen then seen[height] else {}) + {hash}]
  }

  /** The height `pop_first` takes out, when the cache has reached its size. */
  function Evicted(seen: Seen, height: u64, hash: Hash): Option<nat> {
    var full := Insert(seen, height, hash);
    assert height in full.Keys;
    if |full| >= SEEN_HASH_CACHE_SIZE then Some(MinKey(full.Keys)) else None
  }

  function Remember(seen: Seen, height: u64, hash: Hash): Seen {
    var full := Insert(seen, height, hash);
    match Evicted(seen, height, hash)
    case None => full
    case Some(oldest) => full - {oldest}
  }

  // ---------------------------------------------------------------------------------------------
  // Handling of one message

  function Topic(chainId: u64, v: Version): string {
    "/optimism/" + Decimal(chainId) + "/" + [Digit(match v case V1 => 0 case V2 => 1 case V3 => 2 case V4 => 3)]
    + "/blocks"
  }

  /** The payload version that the topic of a message selects. */
  function TopicVersion(chainId: u64, topic: string): Option<Version> {
    if topic == Topic(chainId, V1) then Some(V1)
    else if topic == Topic(chainId, V2) then Some(V2)
    else if topic == Topic(chainId, V3) then Some(V3)
    else if topic == Topic(chainId, V4) then Some(V4)
    else None
  }

  /** The topic a block of the given timestamp is published under. */
  function TopicAt(rules: Rules, timestamp: u64): string {
    Topic(rules.chainId,
          if IsthmusActive(rules.forks, timestamp) then V4
          else if EcotoneActive(rules.forks, timestamp) then V3
          else if CanyonActive(rules.forks, timestamp) then V2
          else V1)
  }

  /** A message with the clock reading and the unsafe block signer in force when it is handled. */
  datatype Delivery = Delivery(topic: string, data: Bytes, now: u64, signer: Address)

  function Decoded(rules: Rules, d: Delivery): Option<Envelope> {
    match TopicVersion(rules.chainId, d.topic)
    case None => None
    case Some(v) =>
      match rules.decode(v, d.data)
      case Err(_) => None
      case Ok(e) => Some(e)
  }

  datatype Handled = Handled(seen: Seen, acceptance: Acceptance, payload: Option<Envelope>)

  function Handle(rules: Rules, seen: Seen, d: Delivery): Handled {
    match Decoded(rules, d)
    case None => Handled(seen, Reject, None)
    case Some(e) =>
      match Verdict(rules, seen, e, d.now, d.signer)
      case None => Handled(Remember(seen, e.payload.blockNumber, e.payload.blockHash), Accept, Some(e))
      case Some(BlockSeen(_)) => Handled(seen, Ignore, None)
      case Some(_) => Handled(seen, Reject, None)
  }

  /** The handler as an object whose cache the accepted blocks update in place. */
  class BlockHandler {
    const rules: Rules
    var seenHashes: Seen

    constructor (rules: Rules)
      ensures this.rules == rules && seenHashes == map[]
    {
      this.rules := rules;
      seenHashes := map[];
    }

    method ValidateBlock(e: Envelope, now: u64, signer: Address) returns (r: Option<BlockInvalid>)
      modifies this
      ensures r == Verdict(rules, old(seenHashes), e, now, signer)
      ensures seenHashes
           == if r.None? then Remember(old(seenHashes), e.payload.blockNumber, e.payload.blockHash)
              else old(seenHashes)
    {
      var height, hash := e.payload.blockNumber, e.payload.blockHash;
      var isFuture := e.payload.timestamp > Wrap(now + 5);
      var isPast := e.payload.timestamp < Wrap(now - 60);
      if isFuture || isPast {
        return Some(Timestamp(now, e.payload.timestamp));
      }
      r := CheckHash(rules, e);
      if r.Some? {
        return;
      }
      r := CheckVersion(rules, e);
      if r.Some? {
        return;
      }
      if height in seenHashes {
        if |seenHashes[height]| > MAX_BLOCKS_TO_KEEP {
          return Some(TooManyBlocks(height));
        }
        if hash in seenHashes[height] {
          return Some(BlockSeen(hash));
        }
      }
      var recovered := rules.recover(e.signature, rules.signatureMessage(e.payloadHash, rules.chainId));
      if recovered.None? {
        return Some(Signature);
      }
      if recovered.value != signer {
        return Some(Signer(recovered.value, signer));
      }
      var at := if height in seenHashes then seenHashes[height] else {};
      seenHashes := seenHashes[height := at + {hash}];
      assert height in seenHashes.Keys;
      if |seenHashes| >= SEEN_HASH_CACHE_SIZE {
        seenHashes := seenHashes - {MinKey(seenHashes.Keys)};
      }
      r := None;
    }

    method HandleMessage(d: Delivery) returns (acceptance: Acceptance, payload: Option<Envelope>)
      modifies this
      ensures Handled(seenHashes, acceptance, payload) == Handle(rules, old(seenHashes), d)
    {
      var version := TopicVersion(rules.chainId, d.topic);
      if version.None? {
        return Reject, None;
      }
      var decoded := rules.decode(version.value, d.data);
      if decoded.Err? {
        return Reject, None;
      }
      var invalid := ValidateBlock(decoded.value, d.now, d.signer);
      if invalid.None? {
        return Accept, Some(decoded.value);
      }
      acceptance := if invalid.value.BlockSeen? then Ignore else Reject;
      payload := None;
    }
  }
}
