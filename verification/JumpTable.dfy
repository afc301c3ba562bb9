/** The framework for jump-table drivers, framework/fw_jumptable.c. */
module JumpTable {
  import opened Geometry
  import opened Bus
  import opened Requests
  import opened BlockRange
  import D = Driver

  /** The four register writes that open a read or a write session. */
  method SendPreamble(driver: D.Driver, setup: Byte, block: Byte, page: Byte, byte: Byte,
                      ghost offset: nat, ghost buffer: array<Byte>)
    requires driver.Valid() && driver.Separate(buffer)
    requires Preamble(setup, offset) == [Command(setup), Address(block), Address(page), Address(byte)]
    modifies driver.Repr()
    ensures driver.Valid()
    ensures Result(driver.World(buffer), true)
         == Run(driver.step, old(driver.World(buffer)), Preamble(setup, offset))
  {
    ghost var step := driver.step;
    ghost var w0 := driver.World(buffer);
    driver.SetRegister(CommandRegister, setup, buffer);
    ghost var w1 := driver.World(buffer);
    driver.SetRegister(AddressRegister, block, buffer);
    ghost var w2 := driver.World(buffer);
    driver.SetRegister(AddressRegister, page, buffer);
    ghost var w3 := driver.World(buffer);
    driver.SetRegister(AddressRegister, byte, buffer);
    FourSteps(step, w0, w1, w2, w3, driver.World(buffer),
              Command(setup), Address(block), Address(page), Address(byte));
  }

  lemma FourSteps(step: Device, w0: World, w1: World, w2: World, w3: World, w4: World,
                  a: Action, b: Action, c: Action, d: Action)
    requires step(w0, a) == Result(w1, true) && step(w1, b) == Result(w2, true)
    requires step(w2, c) == Result(w3, true) && step(w3, d) == Result(w4, true)
    ensures Run(step, w0, [a, b, c, d]) == Result(w4, true)
  {
    assert [a, b, c, d] == [a] + ([b] + ([c] + ([d] + [])));
    RunStep(step, w0, a, [b] + ([c] + ([d] + [])));
    RunStep(step, w1, b, [c] + ([d] + []));
    RunStep(step, w2, c, [d] + []);
    RunStep(step, w3, d, []);
  }

  lemma TwoSteps(step: Device, w0: World, w1: World, a: Action, b: Action)
    requires step(w0, a) == Result(w1, true)
    ensures Run(step, w0, [a, b]) == step(w1, b)
  {
    assert [a, b] == [a] + ([b] + []);
    RunStep(step, w0, a, [b] + []);
    RunStep(step, w1, b, []);
  }

  /** Issue an execute command and wait for the device. */
  method ExecuteAndWait(driver: D.Driver, command: Byte, interval: nat, ghost buffer: array<Byte>) returns (ret: int)
    requires driver.Valid() && driver.Separate(buffer)
    modifies driver.Repr()
    ensures driver.Valid() && ret in {0, -1}
    ensures Result(driver.World(buffer), ret == 0)
         == Run(driver.step, old(driver.World(buffer)), [Command(command), Wait(interval)])
  {
    ghost var w0 := driver.World(buffer);
    driver.SetRegister(CommandRegister, command, buffer);
    ghost var w1 := driver.World(buffer);
    ret := driver.Wait(interval, buffer);
    TwoSteps(driver.step, w0, w1, Command(command), Wait(interval));
  }

  /** How much of the rest of a transfer fits on the current page, if it begins at byteAddr. */
  method SizeOnPage(byteAddr: Byte, bytesLeft: nat) returns (size: nat)
    ensures size == Chunk(byteAddr, bytesLeft)
  {
    size := PAGE_SIZE;
    if byteAddr != 0 {
      size := PAGE_SIZE - byteAddr;
    }
    if bytesLeft < PAGE_SIZE && bytesLeft < size {
      size := bytesLeft;
    }
  }

  lemma SameChunk(a: nat, left: nat)
    ensures Chunk(a % PAGE_SIZE, left) == Chunk(a, left)
    ensures Chunk(a, left) < left ==> (a + Chunk(a, left)) % PAGE_SIZE == 0
  {
  }

  /** jt_write */
  method JtWrite(driver: D.Driver, buffer: array<Byte>, offset: nat, size: nat) returns (ret: int)
    requires driver.Valid() && driver.Separate(buffer) && size <= buffer.Length
    modifies driver.Repr()
    ensures driver.Valid() && ret in {0, -1}
    ensures Result(driver.World(buffer), ret == 0)
         == Run(driver.step, old(driver.World(buffer)), WriteActions(offset, size))
    ensures driver.trace
         == old(driver.trace) + Performed(driver.step, old(driver.World(buffer)), WriteActions(offset, size))
    ensures ret == 0 ==> driver.trace == old(driver.trace) + WriteActions(offset, size)
  {
    RunRecords(driver.step, driver.device.clock.tick, driver.World(buffer), WriteActions(offset, size));
    var byteAddr := ToByte(offset % PAGE_SIZE);
    var pageAddr := ToByte(offset / PAGE_SIZE);
    var blockAddr := ToByte(offset / BLOCK_SIZE);

    RunAppend(driver.step, driver.World(buffer), Preamble(C_PROGRAM_SETUP, offset), WriteBody(offset, 0, size));
    SendPreamble(driver, C_PROGRAM_SETUP, blockAddr, pageAddr, byteAddr, offset, buffer);
    ret := WritePages(driver, buffer, offset, size, byteAddr);
  }

  /** The loop of jt_write. */
  method WritePages(driver: D.Driver, buffer: array<Byte>, ghost offset: nat, size: nat, firstByte: Byte)
    returns (ret: int)
    requires driver.Valid() && driver.Separate(buffer) && size <= buffer.Length
    requires firstByte == offset % PAGE_SIZE
    modifies driver.Repr()
    ensures driver.Valid() && ret in {0, -1}
    ensures Result(driver.World(buffer), ret == 0)
         == Run(driver.step, old(driver.World(buffer)), WriteBody(offset, 0, size))
  {
    ghost var step := driver.step;
    ghost var all := Run(step, driver.World(buffer), WriteBody(offset, 0, size));
    var bytesLeft: nat := size;
    var cursor: nat := 0;
    var byteAddr := firstByte;
    ghost var a: nat := offset;
    while bytesLeft > 0
      invariant driver.Valid() && cursor + bytesLeft == size
      invariant bytesLeft > 0 ==> byteAddr == a % PAGE_SIZE
      invariant all == Run(step, driver.World(buffer), WriteBody(a, cursor, bytesLeft))
    {
      var sizeToWrite;
      ret, sizeToWrite := WriteRound(driver, buffer, a, cursor, byteAddr, bytesLeft);
      if ret != 0 {
        return -1;
      }
      byteAddr := 0;
      a := a + sizeToWrite;
      cursor := cursor + sizeToWrite;
      bytesLeft := bytesLeft - sizeToWrite;
    }
    ret := 0;
  }

  /** One round of the loop: send one chunk, have it programmed and wait. */
  method WriteRound(driver: D.Driver, buffer: array<Byte>, ghost a: nat, cursor: nat, byteAddr: Byte, left: nat)
    returns (ret: int, n: nat)
    requires driver.Valid() && driver.Separate(buffer)
    requires 0 < left && byteAddr == a % PAGE_SIZE && cursor + left <= buffer.Length
    modifies driver.Repr()
    ensures driver.Valid() && ret in {0, -1}
    ensures 0 < n <= left && (n < left ==> (a + n) % PAGE_SIZE == 0)
    ensures Run(driver.step, old(driver.World(buffer)), WriteBody(a, cursor, left))
         == if ret == 0 then Run(driver.step, driver.World(buffer), WriteBody(a + n, cursor + n, left - n))
            else Result(driver.World(buffer), false)
  {
    n := SizeOnPage(byteAddr, left);
    SameChunk(a, left);
    WriteBodySplit(driver.step, driver.World(buffer), a, cursor, left, n);
    ret := SendAndProgram(driver, buffer, cursor, n);
  }

  function WriteChunk(cursor: nat, n: nat): seq<Action> {
    Sends(cursor, n) + [Command(C_PROGRAM_EXECUTE), Wait(TIMEOUT_WRITE_PAGE_US)]
  }

  method SendAndProgram(driver: D.Driver, buffer: array<Byte>, cursor: nat, n: nat) returns (ret: int)
    requires driver.Valid() && driver.Separate(buffer) && cursor + n <= buffer.Length
    modifies driver.Repr()
    ensures driver.Valid() && ret in {0, -1}
    ensures Result(driver.World(buffer), ret == 0) == Run(driver.step, old(driver.World(buffer)), WriteChunk(cursor, n))
  {
    RunAppend(driver.step, driver.World(buffer), Sends(cursor, n),
              [Command(C_PROGRAM_EXECUTE), Wait(TIMEOUT_WRITE_PAGE_US)]);
    driver.WriteBuffer(buffer, cursor, n);
    ret := ExecuteAndWait(driver, C_PROGRAM_EXECUTE, TIMEOUT_WRITE_PAGE_US, buffer);
  }

  lemma WriteBodySplit(step: Device, w: World, a: nat, start: nat, left: nat, n: nat)
    requires left > 0 && n == Chunk(a, left)
    ensures var r := Run(step, w, WriteChunk(start, n));
            Run(step, w, WriteBody(a, start, left))
            == if r.ok then Run(step, r.world, WriteBody(a + n, start + n, left - n)) else r
  {
    RunAppend(step, w, WriteChunk(start, n), WriteBody(a + n, start + n, left - n));
  }

  /** jt_read */
  method JtRead(driver: D.Driver, buffer: array<Byte>, offset: nat, size: nat) returns (ret: int)
    requires driver.Valid() && driver.Separate(buffer) && size <= buffer.Length
    modifies driver.Repr(), buffer
    ensures driver.Valid() && ret in {0, -1}
    ensures Result(driver.World(buffer), ret == 0)
         == Run(driver.step, old(driver.World(buffer)), ReadActions(offset, size))
    ensures driver.trace
         == old(driver.trace) + Performed(driver.step, old(driver.World(buffer)), ReadActions(offset, size))
    ensures ret == 0 ==> driver.trace == old(driver.trace) + ReadActions(offset, size)
  {
    RunRecords(driver.step, driver.device.clock.tick, driver.World(buffer), ReadActions(offset, size));
    var byteAddr := ToByte(offset % PAGE_SIZE);
    var pageAddr := ToByte(offset / PAGE_SIZE);
    var blockAddr := ToByte(offset / BLOCK_SIZE);

    RunAppend(driver.step, driver.World(buffer), Preamble(C_READ_SETUP, offset), ReadBody(offset, 0, size));
    SendPreamble(driver, C_READ_SETUP, blockAddr, pageAddr, byteAddr, offset, buffer);
    ret := ReadPages(driver, buffer, offset, size, byteAddr);
  }

  /** The loop of jt_read. */
  method ReadPages(driver: D.Driver, buffer: array<Byte>, ghost offset: nat, size: nat, firstByte: Byte)
    returns (ret: int)
    requires driver.Valid() && driver.Separate(buffer) && size <= buffer.Length
    requires firstByte == offset % PAGE_SIZE
    modifies driver.Repr(), buffer
    ensures driver.Valid() && ret in {0, -1}
    ensures Result(driver.World(buffer), ret == 0)
         == Run(driver.step, old(driver.World(buffer)), ReadBody(offset, 0, size))
  {
    ghost var step := driver.step;
    ghost var all := Run(step, driver.World(buffer), ReadBody(offset, 0, size));
    var bytesLeft: nat := size;
    var cursor: nat := 0;
    var byteAddr := firstByte;
    ghost var a: nat := offset;
    while bytesLeft > 0
      invariant driver.Valid() && cursor + bytesLeft == size
      invariant bytesLeft > 0 ==> byteAddr == a % PAGE_SIZE
      invariant all == Run(step, driver.World(buffer), ReadBody(a, cursor, bytesLeft))
    {
      var sizeToRead;
      ret, sizeToRead := ReadRound(driver, buffer, a, cursor, byteAddr, bytesLeft);
      if ret != 0 {
        return -1;
      }
      byteAddr := 0;
      a := a + sizeToRead;
      cursor := cursor + sizeToRead;
      bytesLeft := bytesLeft - sizeToRead;
    }
    ret := 0;
  }

  /** One round of the loop: have one page loaded, wait and fetch the part that is asked for. */
  method ReadRound(driver: D.Driver, buffer: array<Byte>, ghost a: nat, cursor: nat, byteAddr: Byte, left: nat)
    returns (ret: int, n: nat)
    requires driver.Valid() && driver.Separate(buffer)
    requires 0 < left && byteAddr == a % PAGE_SIZE && cursor + left <= buffer.Length
    modifies driver.Repr(), buffer
    ensures driver.Valid() && ret in {0, -1}
    ensures 0 < n <= left && (n < left ==> (a + n) % PAGE_SIZE == 0)
    ensures Run(driver.step, old(driver.World(buffer)), ReadBody(a, cursor, left))
         == if ret == 0 then Run(driver.step, driver.World(buffer), ReadBody(a + n, cursor + n, left - n))
            else Result(driver.World(buffer), false)
  {
    n := SizeOnPage(byteAddr, left);
    SameChunk(a, left);
    ReadBodySplit(driver.step, driver.World(buffer), a, cursor, left, n);
    ret := LoadAndFetch(driver, buffer, cursor, n);
  }

  function ReadChunk(cursor: nat, n: nat): seq<Action> {
    [Command(C_READ_EXECUTE), Wait(TIMEOUT_READ_PAGE_US)] + Recvs(cursor, n)
  }

  method LoadAndFetch(driver: D.Driver, buffer: array<Byte>, cursor: nat, n: nat) returns (ret: int)
    requires driver.Valid() && driver.Separate(buffer) && cursor + n <= buffer.Length
    modifies driver.Repr(), buffer
    ensures driver.Valid() && ret in {0, -1}
    ensures Result(driver.World(buffer), ret == 0) == Run(driver.step, old(driver.World(buffer)), ReadChunk(cursor, n))
  {
    RunAppend(driver.step, driver.World(buffer), [Command(C_READ_EXECUTE), Wait(TIMEOUT_READ_PAGE_US)],
              Recvs(cursor, n));
    ret := ExecuteAndWait(driver, C_READ_EXECUTE, TIMEOUT_READ_PAGE_US, buffer);
    if ret == 0 {
      driver.ReadBuffer(buffer, cursor, n);
    }
  }

  lemma ReadBodySplit(step: Device, w: World, a: nat, start: nat, left: nat, n: nat)
    requires left > 0 && n == Chunk(a, left)
    ensures var r := Run(step, w, ReadChunk(start, n));
            Run(step, w, ReadBody(a, start, left))
            == if r.ok then Run(step, r.world, ReadBody(a + n, start + n, left - n)) else r
  {
    RunAppend(step, w, ReadChunk(start, n), ReadBody(a + n, start + n, left - n));
  }

  /** jt_erase.  The number of blocks is the one that unsigned ints yield. */
  method JtErase(driver: D.Driver, offset: nat, size: nat, ghost buffer: array<Byte>) returns (ret: int)
    requires driver.Valid() && driver.Separate(buffer)
    requires offset < UINT_LIMIT && size < UINT_LIMIT
    modifies driver.Repr()
    ensures driver.Valid() && ret in {0, -1}
    ensures Result(driver.World(buffer), ret == 0)
         == Run(driver.step, old(driver.World(buffer)), EraseSession(offset, UnsignedBlockCount(offset, size)))
    ensures driver.trace
         == old(driver.trace)
          + Performed(driver.step, old(driver.World(buffer)), EraseSession(offset, UnsignedBlockCount(offset, size)))
    ensures ret == 0 ==>
              driver.trace == old(driver.trace) + EraseSession(offset, UnsignedBlockCount(offset, size))
  {
    ghost var step := driver.step;
    ghost var w0 := driver.World(buffer);
    var startBlock := ToByte(offset / BLOCK_SIZE);
    var numBlocks := NumBlocks(offset, size);
    RunRecords(step, driver.device.clock.tick, w0, EraseSession(offset, numBlocks));

    driver.SetRegister(CommandRegister, C_ERASE_SETUP, buffer);
    ghost var w1 := driver.World(buffer);
    driver.SetRegister(AddressRegister, startBlock, buffer);
    TwoSteps(step, w0, w1, Command(C_ERASE_SETUP), Address(startBlock));
    RunAppend(step, w0, [Command(C_ERASE_SETUP), Address(startBlock)], EraseBody(numBlocks));
    ret := EraseBlocks(driver, numBlocks, buffer);
  }

  /** The loop of jt_erase. */
  method EraseBlocks(driver: D.Driver, numBlocks: nat, ghost buffer: array<Byte>) returns (ret: int)
    requires driver.Valid() && driver.Separate(buffer)
    modifies driver.Repr()
    ensures driver.Valid() && ret in {0, -1}
    ensures Result(driver.World(buffer), ret == 0)
         == Run(driver.step, old(driver.World(buffer)), EraseBody(numBlocks))
  {
    ghost var step := driver.step;
    ghost var all := Run(step, driver.World(buffer), EraseBody(numBlocks));
    var b := 0;
    while b < numBlocks
      invariant driver.Valid() && b <= numBlocks
      invariant all == Run(step, driver.World(buffer), EraseBody(numBlocks - b))
    {
      RunAppend(step, driver.World(buffer), [Command(C_ERASE_EXECUTE), Wait(TIMEOUT_ERASE_BLOCK_US)],
                EraseBody(numBlocks - b - 1));
      ret := ExecuteAndWait(driver, C_ERASE_EXECUTE, TIMEOUT_ERASE_BLOCK_US, buffer);
      if ret != 0 {
        return -1;
      }
      b := b + 1;
    }
    ret := 0;
  }
}
