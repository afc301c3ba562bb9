/** The driver actions that serve one framework request.  Offsets and sizes count bytes. */
module Requests {
  import opened Geometry
  import opened Bus
  import opened MirrorSpec

  /** Bytes up to the end of the page that contains address a, or `left` if that is less. */
  function Chunk(a: nat, left: nat): (n: nat)
    ensures n <= left && a % PAGE_SIZE + n <= PAGE_SIZE
    ensures left > 0 ==> n > 0
    ensures n < left ==> (a + n) % PAGE_SIZE == 0
  {
    var room := PAGE_SIZE - a % PAGE_SIZE;
    if left < room then left else room
  }

  /** Pages that contain at least one of the bytes offset .. offset + size - 1. */
  function PageCount(offset: nat, size: nat): nat {
    (offset % PAGE_SIZE + size + PAGE_SIZE - 1) / PAGE_SIZE
  }

  lemma OnePageLess(a: nat, left: nat)
    requires left > 0
    ensures var n := Chunk(a, left); PageCount(a, left) == 1 + PageCount(a + n, left - n) || n == left
    ensures Chunk(a, left) == left ==> PageCount(a, left) == 1
  {
  }

  function Sends(start: nat, n: nat): (s: seq<Action>)
    ensures |s| == n
    decreases n
  {
    if n == 0 then [] else [Send(start)] + Sends(start + 1, n - 1)
  }

  function Recvs(start: nat, n: nat): (s: seq<Action>)
    ensures |s| == n
    decreases n
  {
    if n == 0 then [] else [Recv(start)] + Recvs(start + 1, n - 1)
  }

  function Command(c: Byte): Action {
    Set(CommandRegister, c)
  }

  function Address(a: Byte): Action {
    Set(AddressRegister, a)
  }

  /** The block, page and byte number of an address, each cut down to a byte. */
  function Addresses(offset: nat): seq<Action> {
    [Address(ToByte(offset / BLOCK_SIZE)), Address(ToByte(offset / PAGE_SIZE)), Address(ToByte(offset))]
  }

  function Preamble(setup: Byte, offset: nat): seq<Action> {
    [Command(setup)] + Addresses(offset)
  }

  /** Program the pages from address a on with the `left` buffer bytes from `start` on. */
  function WriteBody(a: nat, start: nat, left: nat): seq<Action>
    decreases left
  {
    if left == 0 then []
    else
      var n := Chunk(a, left);
      Sends(start, n) + [Command(C_PROGRAM_EXECUTE), Wait(TIMEOUT_WRITE_PAGE_US)]
      + WriteBody(a + n, start + n, left - n)
  }

  function WriteActions(offset: nat, size: nat): seq<Action> {
    Preamble(C_PROGRAM_SETUP, offset) + WriteBody(offset, 0, size)
  }

  function ReadBody(a: nat, start: nat, left: nat): seq<Action>
    decreases left
  {
    if left == 0 then []
    else
      var n := Chunk(a, left);
      [Command(C_READ_EXECUTE), Wait(TIMEOUT_READ_PAGE_US)] + Recvs(start, n)
      + ReadBody(a + n, start + n, left - n)
  }

  function ReadActions(offset: nat, size: nat): seq<Action> {
    Preamble(C_READ_SETUP, offset) + ReadBody(offset, 0, size)
  }

  function EraseBody(blocks: nat): seq<Action> {
    if blocks == 0 then []
    else [Command(C_ERASE_EXECUTE), Wait(TIMEOUT_ERASE_BLOCK_US)] + EraseBody(blocks - 1)
  }

  /** Erase a number of blocks from the one that contains address offset on. */
  function EraseSession(offset: nat, blocks: nat): seq<Action> {
    [Command(C_ERASE_SETUP), Address(ToByte(offset / BLOCK_SIZE))] + EraseBody(blocks)
  }

  function EraseActions(offset: nat, size: nat): seq<Action> {
    EraseSession(offset, BlockCount(offset, size))
  }
}
