/** The block headers of BRMerkleBlock.h, with the transaction hashes that a merkle block brought along. */
module Blocks {
  import opened Words

  type Hash = nat

  /** The height from which on every block has its own difficulty. */
  const DGW_START_BLOCK: u32 := 338778

  datatype Block = Block(hash: Hash, prevBlock: Hash, timestamp: u32, target: u32, height: u32, txHashes: seq<Hash>)
}
