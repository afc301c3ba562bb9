/** What tester/st_mirror.c computes: storage as a flat ring of bytes. */
module MirrorSpec {
  import opened Geometry
  import opened Ring

  /** Bytes from the end of the range up to the end of the page that holds its last byte. */
  function PagePadding(end: nat): nat {
    if end % PAGE_SIZE == 0 then 0 else PAGE_SIZE - end % PAGE_SIZE
  }

  function ReadMirror(mirror: seq<Byte>, offset: nat, size: nat): seq<Byte>
    requires |mirror| == STORE_SIZE
  {
    Get(mirror, offset, size)
  }

  /** Zeroes up to the first byte, the data, zeroes up to the end of the last page. */
  function WriteMirror(mirror: seq<Byte>, bytes: seq<Byte>, offset: nat): (r: seq<Byte>)
    requires |mirror| == STORE_SIZE
    ensures |r| == STORE_SIZE
  {
    var prefix := Put(mirror, PageStart(offset), Zeros(offset % PAGE_SIZE));
    var data := Put(prefix, offset, bytes);
    Put(data, offset + |bytes|, Zeros(PagePadding(offset + |bytes|)))
  }

  /** Blocks that contain at least one of the bytes offset .. offset + size - 1. */
  function BlockCount(offset: nat, size: nat): nat {
    (offset % BLOCK_SIZE + size + BLOCK_SIZE - 1) / BLOCK_SIZE
  }

  function EraseMirror(mirror: seq<Byte>, offset: nat, size: nat): (r: seq<Byte>)
    requires |mirror| == STORE_SIZE
    ensures |r| == STORE_SIZE
  {
    Put(mirror, BlockStart(offset), Zeros(BlockCount(offset, size) * BLOCK_SIZE))
  }
}
