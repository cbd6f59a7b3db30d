/** L1 and L2 block records shared by the cursor, the driver and the proof programs. */
module Blocks {
  import opened Prelude

  datatype Header = Header(parentHash: Hash, number: u64, timestamp: u64, content: nat)

  /** A header together with the hash it was sealed with. */
  datatype Sealed = Sealed(inner: Header, hash: Hash)

  datatype BlockId = BlockId(number: u64, hash: Hash)

  datatype BlockInfo = BlockInfo(hash: Hash, number: u64, parentHash: Hash, timestamp: u64)

  datatype L2BlockInfo = L2BlockInfo(blockInfo: BlockInfo, l1Origin: BlockId, seqNum: u64)

  datatype TipCursor = TipCursor(l2SafeHead: L2BlockInfo, header: Sealed, outputRoot: Hash)

  predicate IsParentOf(parent: BlockInfo, child: BlockInfo) {
    parent.number + 1 == child.number && parent.hash == child.parentHash
  }

  /** The block info and the sealed header of a tip describe one block. */
  predicate TipAgrees(tip: TipCursor) {
    && tip.l2SafeHead.blockInfo.number == tip.header.inner.number
    && tip.l2SafeHead.blockInfo.hash == tip.header.hash
  }
}
