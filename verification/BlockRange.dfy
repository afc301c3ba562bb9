/** How both frameworks turn a byte range into a number of whole blocks. */
module BlockRange {
  import opened Geometry
  import opened MirrorSpec

  /** Blocks needed for a number of bytes. */
  function RoundedUp(total: nat): nat {
    total / BLOCK_SIZE + if total % BLOCK_SIZE != 0 then 1 else 0
  }

  /** The number of blocks that the frameworks compute with unsigned ints. */
  function UnsignedBlockCount(offset: nat, size: nat): nat {
    RoundedUp((size + offset % BLOCK_SIZE) % UINT_LIMIT)
  }

  /** The blocks that contain a byte of the range are BlockCount blocks in a row. */
  lemma BlockCountMeaning(offset: nat, size: nat, k: nat)
    requires size > 0
    ensures (exists x :: offset <= x < offset + size && x / BLOCK_SIZE == k)
       <==> offset / BLOCK_SIZE <= k < offset / BLOCK_SIZE + BlockCount(offset, size)
  {
    var x := if k == offset / BLOCK_SIZE then offset else k * BLOCK_SIZE;
    assert x / BLOCK_SIZE == k;
  }

  /** It is the number of blocks that the range touches if and only if the sum does not overflow.
      If it does, at most one block is computed where at least 65536 are touched. */
  lemma EraseCountExactly(offset: nat, size: nat)
    requires offset < UINT_LIMIT && size < UINT_LIMIT
    ensures UnsignedBlockCount(offset, size) == BlockCount(offset, size)
       <==> size + offset % BLOCK_SIZE < UINT_LIMIT
    ensures size + offset % BLOCK_SIZE >= UINT_LIMIT ==>
              UnsignedBlockCount(offset, size) <= 1 && BlockCount(offset, size) >= 65536
  {
    var sum := size + offset % BLOCK_SIZE;
    if sum >= UINT_LIMIT {
      Division(sum, UINT_LIMIT, 1, sum - UINT_LIMIT);
    }
  }

  /** The number of blocks to erase, with unsigned addition. */
  method NumBlocks(offset: nat, size: nat) returns (numBlocks: nat)
    requires offset < UINT_LIMIT && size < UINT_LIMIT
    ensures numBlocks == UnsignedBlockCount(offset, size)
    ensures numBlocks == BlockCount(offset, size) <==> size + offset % BLOCK_SIZE < UINT_LIMIT
  {
    var total := (size + offset % BLOCK_SIZE) % UINT_LIMIT;
    numBlocks := total / BLOCK_SIZE;
    if total % BLOCK_SIZE != 0 {
      numBlocks := numBlocks + 1;
    }
    EraseCountExactly(offset, size);
  }
}
