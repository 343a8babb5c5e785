/** Disk blocks and the disk as a map from block number to contents. */
module Blocks {

  const BLOCKWORDS: nat := 128      // BSIZE / sizeof(uint)

  // A disk block as its 32-bit words.
  type Block = b: seq<int> | |b| == BLOCKWORDS witness seq(BLOCKWORDS, _ => 0)

  // A single block write is atomic; memory is lost in a crash, this map is not.
  type Disk = map<nat, Block>
}
