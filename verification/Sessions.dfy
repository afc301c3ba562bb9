/** How a session begins: a setup command and the address bytes after it. */
module Sessions {
  import opened Geometry
  import opened Ring
  import opened StoreSpec
  import opened Clock
  import opened ParserSpec
  import opened Bus
  import opened Requests

  const ZEROED: seq<Byte> := Zeros(PAGE_SIZE)

  /** Between requests: the device is ready and waits for a setup command. */
  ghost predicate Idle(tick: Schedule, w: World) {
    && w.m.state in {Initial, ReadProvidingData, ProgramAcceptingData, EraseAwaitingExecute}
    && !Busy(tick, w)
    && (w.m.state == Initial ==> w.m.deadline == 0 && w.m.store.cursor == 0 && w.m.store.cache == ZEROED)
  }

  /** Within the address phase of a session that began with setup command c. */
  ghost predicate Addressing(w: World, c: Byte, state: MachineState, data: seq<Byte>) {
    && w.m.state == state
    && w.m.word.command == c
    && w.m.deadline == 0
    && w.m.store.cache == ZEROED
    && w.m.store.data == data
  }

  lemma Begin(device: Device, tick: Schedule, w: World, c: Byte)
    requires Emulates(device, tick) && Idle(tick, w) && IsSetup(c)
    ensures var r := device(w, Command(c));
            && r.ok && r.world.buf == w.buf
            && Addressing(r.world, c, SetupState(c), w.m.store.data)
            && r.world.m.store.cursor == 0
  {
    var r := Perform(tick, w, Command(c));
  }

  function NextState(s: MachineState): MachineState {
    match s
    case ReadAwaitingBlock => ReadAwaitingPage
    case ReadAwaitingPage => ReadAwaitingByte
    case ReadAwaitingByte => ReadAwaitingExecute
    case ProgramAwaitingBlock => ProgramAwaitingPage
    case ProgramAwaitingPage => ProgramAwaitingByte
    case ProgramAwaitingByte => ProgramAcceptingData
    case EraseAwaitingBlock => EraseAwaitingExecute
    case _ => Bug
  }

  function PlaceOf(s: MachineState): Place {
    match s
    case ReadAwaitingPage => PagePlace
    case ReadAwaitingByte => BytePlace
    case ProgramAwaitingPage => PagePlace
    case ProgramAwaitingByte => BytePlace
    case _ => BlockPlace
  }

  lemma OneAddress(device: Device, tick: Schedule, w: World, c: Byte, state: MachineState, a: Byte)
    requires Emulates(device, tick)
    requires Addressing(w, c, state, w.m.store.data) && NextState(state) != Bug
    requires if state.EraseAwaitingBlock? then c == C_ERASE_SETUP
             else if state in {ReadAwaitingBlock, ReadAwaitingPage, ReadAwaitingByte} then c == C_READ_SETUP
             else c == C_PROGRAM_SETUP
    ensures var r := device(w, Address(a));
            && r.ok && r.world.buf == w.buf
            && Addressing(r.world, if state == ProgramAwaitingByte then C_DUMMY else c, NextState(state),
                          w.m.store.data)
            && r.world.m.store.cursor == w.m.store.SetCursorByte(a, PlaceOf(state)).cursor
  {
    var r := Perform(tick, w, Address(a));
  }

  lemma DigitByDigit(block: Byte, page: Byte)
    ensures BlockStart(block * BLOCK_SIZE) + page * PAGE_SIZE + block * BLOCK_SIZE % PAGE_SIZE
         == block * BLOCK_SIZE + page * PAGE_SIZE
    ensures PageStart(block * BLOCK_SIZE + page * PAGE_SIZE) == block * BLOCK_SIZE + page * PAGE_SIZE
  {
  }

  // The three address bytes of a read or a write, one after the other.

  ghost predicate Transfer(c: Byte) {
    c == C_READ_SETUP || c == C_PROGRAM_SETUP
  }

  lemma BlockByte(device: Device, tick: Schedule, w: World, c: Byte, block: Byte)
    requires Emulates(device, tick) && Transfer(c)
    requires Addressing(w, c, SetupState(c), w.m.store.data) && w.m.store.cursor == 0
    ensures var r := device(w, Address(block));
            && r.ok && r.world.buf == w.buf
            && Addressing(r.world, c, NextState(SetupState(c)), w.m.store.data)
            && r.world.m.store.cursor == block * BLOCK_SIZE
  {
    OneAddress(device, tick, w, c, SetupState(c), block);
  }

  lemma PageByte(device: Device, tick: Schedule, w: World, c: Byte, block: Byte, page: Byte)
    requires Emulates(device, tick) && Transfer(c)
    requires Addressing(w, c, NextState(SetupState(c)), w.m.store.data) && w.m.store.cursor == block * BLOCK_SIZE
    ensures var r := device(w, Address(page));
            && r.ok && r.world.buf == w.buf
            && Addressing(r.world, c, NextState(NextState(SetupState(c))), w.m.store.data)
            && r.world.m.store.cursor == block * BLOCK_SIZE + page * PAGE_SIZE
  {
    OneAddress(device, tick, w, c, NextState(SetupState(c)), page);
    DigitByDigit(block, page);
  }

  lemma LastByte(device: Device, tick: Schedule, w: World, c: Byte, block: Byte, page: Byte, byte: Byte)
    requires Emulates(device, tick) && Transfer(c)
    requires Addressing(w, c, NextState(NextState(SetupState(c))), w.m.store.data)
    requires w.m.store.cursor == block * BLOCK_SIZE + page * PAGE_SIZE
    ensures var r := device(w, Address(byte));
            && r.ok && r.world.buf == w.buf
            && Addressing(r.world, if c == C_READ_SETUP then c else C_DUMMY,
                          if c == C_READ_SETUP then ReadAwaitingExecute else ProgramAcceptingData, w.m.store.data)
            && r.world.m.store.cursor == block * BLOCK_SIZE + page * PAGE_SIZE + byte
  {
    OneAddress(device, tick, w, c, NextState(NextState(SetupState(c))), byte);
    DigitByDigit(block, page);
  }

  lemma ThreeAddresses(device: Device, tick: Schedule, w: World, c: Byte, offset: nat)
    requires Emulates(device, tick) && Transfer(c)
    requires Addressing(w, c, SetupState(c), w.m.store.data) && w.m.store.cursor == 0
    ensures var r := Run(device, w, Addresses(offset));
            && r.ok && r.world.buf == w.buf
            && Addressing(r.world, if c == C_READ_SETUP then c else C_DUMMY,
                          if c == C_READ_SETUP then ReadAwaitingExecute else ProgramAcceptingData, w.m.store.data)
            && r.world.m.store.cursor == offset % STORE_SIZE
  {
    var block, page, byte := ToByte(offset / BLOCK_SIZE), ToByte(offset / PAGE_SIZE), ToByte(offset);
    var w1 := device(w, Address(block)).world;
    BlockByte(device, tick, w, c, block);
    var w2 := device(w1, Address(page)).world;
    PageByte(device, tick, w1, c, block, page);
    LastByte(device, tick, w2, c, block, page, byte);
    AddressDigits(offset);
    RunThree(device, w, Address(block), Address(page), Address(byte));
  }

  lemma RunThree(device: Device, w: World, a: Action, b: Action, c: Action)
    requires device(w, a).ok && device(device(w, a).world, b).ok
    ensures Run(device, w, [a, b, c]) == device(device(device(w, a).world, b).world, c)
  {
    var w1 := device(w, a).world;
    var w2 := device(w1, b).world;
    assert [a, b, c] == [a] + ([b] + ([c] + []));
    RunStep(device, w, a, [b] + ([c] + []));
    RunStep(device, w1, b, [c] + []);
    RunStep(device, w2, c, []);
  }

  /** After the preamble of a read or a write the cursor is the requested address, wrapped to
      the size of the store, and the cache is zero. */
  lemma Open(device: Device, tick: Schedule, w: World, c: Byte, offset: nat)
    requires Emulates(device, tick) && Idle(tick, w) && Transfer(c)
    ensures var r := Run(device, w, Preamble(c, offset));
            && r.ok && r.world.buf == w.buf
            && Addressing(r.world, if c == C_READ_SETUP then c else C_DUMMY,
                          if c == C_READ_SETUP then ReadAwaitingExecute else ProgramAcceptingData, w.m.store.data)
            && r.world.m.store.cursor == offset % STORE_SIZE
  {
    Begin(device, tick, w, c);
    ThreeAddresses(device, tick, device(w, Command(c)).world, c, offset);
    RunStep(device, w, Command(c), Addresses(offset));
  }
}
