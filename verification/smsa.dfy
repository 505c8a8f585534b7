/** Geometry of the SMSA drum array and the small value types shared by every
    other module: bytes, 256-byte blocks and an optional value. */
module Smsa {

  /** The conventional Some/None datatype, standing in for a nullable pointer. */
  datatype Option<+T> = None | Some(value: T)

  /** Bytes per block, blocks per drum, and drums in the array. */
  const BlockSize: nat := 256
  const BlocksPerDrum: nat := 256
  const DrumCount: nat := 16

  /** Number of blocks in the whole array, and number of addressable bytes (1 MiB). */
  const TotalBlocks: nat := DrumCount * BlocksPerDrum
  const Capacity: nat := TotalBlocks * BlockSize

  /** One block of data: exactly 256 bytes. */
  type BlockData = s: seq<bv8> | |s| == BlockSize witness seq(256, _ => 0)

  /** A (drum, block) pair that names a real block of the array. */
  predicate InArray(drum: int, block: int) {
    0 <= drum < DrumCount && 0 <= block < BlocksPerDrum
  }

  function Min(a: int, b: int): int {
    if a <= b then a else b
  }

  /** Position of block (drum, block) when the blocks are laid out drum-major. */
  function BlockIndex(drum: int, block: int): (i: nat)
    requires InArray(drum, block)
    ensures i < TotalBlocks
  {
    drum * BlocksPerDrum + block
  }
}
