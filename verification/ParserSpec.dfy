/** The command parser of device/de_parser.c as a function from machine to machine. */
module ParserSpec {
  import opened Geometry
  import opened StoreSpec

  datatype MachineState =
    | Initial
    | Bug
    | ReadAwaitingBlock
    | ReadAwaitingPage
    | ReadAwaitingByte
    | ReadAwaitingExecute
    | ReadProvidingData
    | ProgramAwaitingBlock
    | ProgramAwaitingPage
    | ProgramAwaitingByte
    | ProgramAcceptingData
    | EraseAwaitingBlock
    | EraseAwaitingExecute

  /** The IO word: what the driver last stored in each register, unless the device has
      overwritten it since. */
  datatype Word = Word(command: Byte, address: Byte, data: Byte)

  const DUMMY: Word := Word(C_DUMMY, 0, 0)

  datatype Machine = Machine(state: MachineState, word: Word, store: StoreState, deadline: nat)

  /** clear_state */
  function ClearState(m: Machine): Machine {
    m.(deadline := 0, store := m.store.ClearCursor().ClearCache())
  }

  /** parser_reset.  The IO word is not touched. */
  function Reset(m: Machine): Machine {
    ClearState(m).(state := Initial)
  }

  function Fail(m: Machine): Machine {
    m.(state := Bug)
  }

  predicate IsSetup(command: Byte) {
    command == C_READ_SETUP || command == C_PROGRAM_SETUP || command == C_ERASE_SETUP
  }

  /** The state in which the first address byte of a session is due. */
  function SetupState(command: Byte): MachineState {
    if command == C_READ_SETUP then ReadAwaitingBlock
    else if command == C_PROGRAM_SETUP then ProgramAwaitingBlock
    else if command == C_ERASE_SETUP then EraseAwaitingBlock
    else Bug
  }

  /** A setup command ends one session and begins another; anything else is a bug. */
  function NewSession(m: Machine): Machine {
    if IsSetup(m.word.command) then ClearState(m).(state := SetupState(m.word.command)) else Fail(m)
  }

  function TakeAddress(m: Machine, place: Place, next: MachineState): Machine {
    m.(store := m.store.SetCursorByte(m.word.address, place), state := next)
  }

  function LoadPage(m: Machine, t: nat): Machine {
    Machine(ReadProvidingData, DUMMY, m.store.CopyPageToCache(), t + READ_PAGE_DURATION)
  }

  function ProvideByte(m: Machine): Machine {
    m.(word := Word(C_DUMMY, 0, m.store.CacheByte()), store := m.store.IncrementCursor(false))
  }

  function AcceptByte(m: Machine): Machine {
    m.(store := m.store.SetCacheByte(m.word.data).IncrementCursor(true))
  }

  function ProgramPage(m: Machine, t: nat): Machine {
    Machine(m.state, DUMMY, m.store.CopyPageFromCache().ClearCache().IncrementPage(), t + WRITE_PAGE_DURATION)
  }

  function EraseBlock(m: Machine, t: nat): Machine {
    Machine(m.state, DUMMY, m.store.EraseBlock().IncrementBlock(), t + ERASE_BLOCK_DURATION)
  }

  /** handle_watchpoint_ioregisters: one access to the IO word.  `busy` is what
      before_deadline() returns in this call, and `t` is the time at which
      set_deadline() reads the clock, if it does. */
  function Handle(m: Machine, busy: bool, t: nat): Machine {
    var command := m.word.command;
    match m.state
    case Initial => m.(state := SetupState(command))
    case Bug => m
    case ReadAwaitingBlock =>
      if busy || command != C_READ_SETUP then Fail(m) else TakeAddress(m, BlockPlace, ReadAwaitingPage)
    case ReadAwaitingPage =>
      if busy || command != C_READ_SETUP then Fail(m) else TakeAddress(m, PagePlace, ReadAwaitingByte)
    case ReadAwaitingByte =>
      if busy || command != C_READ_SETUP then Fail(m) else TakeAddress(m, BytePlace, ReadAwaitingExecute)
    case ReadAwaitingExecute =>
      if busy || command != C_READ_EXECUTE then Fail(m) else LoadPage(m, t)
    case ReadProvidingData =>
      if busy then Fail(m)
      else if command == C_DUMMY then ProvideByte(m)
      else if command == C_READ_EXECUTE then LoadPage(m, t)
      else NewSession(m)
    case ProgramAwaitingBlock =>
      if busy || command != C_PROGRAM_SETUP then Fail(m) else TakeAddress(m, BlockPlace, ProgramAwaitingPage)
    case ProgramAwaitingPage =>
      if busy || command != C_PROGRAM_SETUP then Fail(m) else TakeAddress(m, PagePlace, ProgramAwaitingByte)
    case ProgramAwaitingByte =>
      if busy || command != C_PROGRAM_SETUP then Fail(m)
      else TakeAddress(m, BytePlace, ProgramAcceptingData).(word := DUMMY)
    case ProgramAcceptingData =>
      if busy then Fail(m)
      else if command == C_DUMMY then AcceptByte(m)
      else if command == C_PROGRAM_EXECUTE then ProgramPage(m, t)
      else NewSession(m)
    case EraseAwaitingBlock =>
      if busy || command != C_ERASE_SETUP then Fail(m) else TakeAddress(m, BlockPlace, EraseAwaitingExecute)
    case EraseAwaitingExecute =>
      if busy then Fail(m)
      else if command == C_ERASE_EXECUTE then EraseBlock(m, t)
      else NewSession(m)
  }

  /** What the driver sees when this access is a read of the data register: the cache byte
      that the device provides, or else what the register held already. */
  function ReadValue(m: Machine, busy: bool): Byte {
    if m.state == ReadProvidingData && !busy && m.word.command == C_DUMMY then m.store.CacheByte() else m.word.data
  }

  /** How often one access reads the clock. */
  function ReadingsTaken(m: Machine, busy: bool): nat {
    if m.state == Initial || m.state == Bug then 0
    else if busy then 1
    else if m.state in {ReadAwaitingExecute, ReadProvidingData} && m.word.command == C_READ_EXECUTE then 2
    else if m.state == ProgramAcceptingData && m.word.command == C_PROGRAM_EXECUTE then 2
    else if m.state == EraseAwaitingExecute && m.word.command == C_ERASE_EXECUTE then 2
    else 1
  }
}
