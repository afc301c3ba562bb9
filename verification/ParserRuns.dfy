/** What holds of the parser on every run, whatever the driver does and whenever. */
module ParserRuns {
  import opened Geometry
  import opened Ring
  import opened StoreSpec
  import opened ParserSpec
  import opened Bus
  import opened EndToEnd

  /** One thing that can happen to the device.  `now` is the time that before_deadline()
      reads and `then` the time that set_deadline() reads, if these are called. */
  datatype Event =
    | Wrote(register: Register, value: Byte, now: nat, later: nat)
    | WasRead(now: nat, later: nat)
    | PinReset

  /** The machine at the moment at which the handler looks at it. */
  function Touched(m: Machine, e: Event): Machine {
    if e.Wrote? then m.(word := StoreRegister(m.word, e.register, e.value)) else m
  }

  function React(m: Machine, e: Event): Machine {
    if e.PinReset? then Reset(m) else Handle(Touched(m, e), e.now < m.deadline, e.later)
  }

  function ReactAll(m: Machine, events: seq<Event>): Machine {
    if events == [] then m
    else
      var n := |events| - 1;
      React(ReactAll(m, events[..n]), events[n])
  }

  predicate AwaitsAddress(s: MachineState) {
    s in {ReadAwaitingBlock, ReadAwaitingPage, ReadAwaitingByte,
          ProgramAwaitingBlock, ProgramAwaitingPage, ProgramAwaitingByte, EraseAwaitingBlock}
  }

  /** The deadline is clear whenever an address byte or the first read is due, and the cache is
      zero unless it holds a loaded page or bytes to program. */
  ghost predicate Tidy(m: Machine) {
    && (AwaitsAddress(m.state) || m.state == ReadAwaitingExecute || m.state == Initial ==> m.deadline == 0)
    && (m.state !in {ReadProvidingData, ProgramAcceptingData, Bug} ==> m.store.cache == Zeros(PAGE_SIZE))
    && (m.state == Initial ==> m.store.cursor == 0)
  }

  lemma TidyStep(m: Machine, e: Event)
    requires Tidy(m)
    ensures Tidy(React(m, e))
  {
  }

  /** Every reachable machine is tidy.  That its cursor is below 2^24 and that its store and
      cache indices are in bounds is part of its type. */
  lemma {:induction false} ReachableIsTidy(events: seq<Event>)
    ensures Tidy(ReactAll(POWER_ON, events))
    ensures ReactAll(POWER_ON, events).store.cursor < STORE_SIZE
  {
    if events != [] {
      var n := |events| - 1;
      ReachableIsTidy(events[..n]);
      TidyStep(ReactAll(POWER_ON, events[..n]), events[n]);
    }
  }

  /** Each program execute leaves a zero cache behind. */
  lemma ProgramExecuteClearsCache(m: Machine, e: Event)
    requires m.state == ProgramAcceptingData && !e.PinReset?
    requires e.now >= m.deadline && Touched(m, e).word.command == C_PROGRAM_EXECUTE
    ensures var r := React(m, e);
            r.state == ProgramAcceptingData && r.store.cache == Zeros(PAGE_SIZE) && r.store.cursor % PAGE_SIZE == 0
  {
  }

  /** What the IO word holds after an access.  In the data states the device leaves no command
      behind: a byte it has provided stays in the data register, a byte it has accepted is left
      alone, and an execute command is taken away, so that a stray access cannot repeat it. */
  lemma WordAfter(m: Machine, busy: bool, t: nat)
    ensures var r := Handle(m, busy, t);
            match r.state
            case ReadProvidingData =>
              r.word == Word(C_DUMMY, 0, if m.word.command == C_DUMMY then ReadValue(m, busy) else 0)
            case ProgramAcceptingData =>
              r.word == if m.state == ProgramAcceptingData && m.word.command == C_DUMMY then m.word else DUMMY
            case EraseAwaitingExecute => r.word == if m.state == EraseAwaitingBlock then m.word else DUMMY
            case _ => r.word == m.word
  {
  }

  /** What the driver sees in the data register is what the register holds after the access, unless
      the device takes a command away in this access; then it is what the register held before. */
  lemma ReadSeesRegister(m: Machine, busy: bool, t: nat)
    ensures var r := Handle(m, busy, t);
            ReadValue(m, busy) == r.word.data || (r.word == DUMMY && ReadValue(m, busy) == m.word.data)
  {
  }

  /** An access reads the clock a first time unless the device waits for its first command or is
      in MS_BUG, and a second time if and only if the outcome depends on the second reading. */
  lemma ClockIsReadAsNeeded(m: Machine, busy: bool)
    ensures ReadingsTaken(m, busy) <= 2
    ensures ReadingsTaken(m, busy) == 0 <==> m.state in {Initial, Bug}
    ensures ReadingsTaken(m, busy) == 0 ==> Handle(m, true, 0) == Handle(m, false, 0)
    ensures ReadingsTaken(m, busy) == 2 <==> Handle(m, busy, 0) != Handle(m, busy, 1)
  {
  }

  /** A bug freezes the machine as the access has found it. */
  lemma BugFreezes(m: Machine, busy: bool, t: nat)
    requires Handle(m, busy, t).state == Bug
    ensures Handle(m, busy, t) == m.(state := Bug)
  {
  }

  /** Until a session has its address, an access changes neither cache nor deadline, nor any digit
      of the cursor but the one that is due. */
  lemma AddressPhase(m: Machine, busy: bool, t: nat)
    requires AwaitsAddress(m.state) || m.state == Initial
    ensures var r := Handle(m, busy, t);
            var c, d := m.store.cursor, r.store.cursor;
            && r.store.cache == m.store.cache && r.deadline == m.deadline
            && (m.state !in {ReadAwaitingBlock, ProgramAwaitingBlock, EraseAwaitingBlock} ==>
                  d / BLOCK_SIZE == c / BLOCK_SIZE)
            && (m.state !in {ReadAwaitingPage, ProgramAwaitingPage} ==> d / PAGE_SIZE % 256 == c / PAGE_SIZE % 256)
            && (m.state !in {ReadAwaitingByte, ProgramAwaitingByte} ==> d % PAGE_SIZE == c % PAGE_SIZE)
  {
    DigitsAfterSet(m.store, m.word.address, BlockPlace);
    DigitsAfterSet(m.store, m.word.address, PagePlace);
    DigitsAfterSet(m.store, m.word.address, BytePlace);
  }

  /** The three registers are separate: each holds what was stored in it last. */
  lemma RegistersAreSeparate(w: Word, register: Register, value: Byte, other: Register)
    ensures Held(StoreRegister(w, register, value), other) == if other == register then value else Held(w, other)
  {
  }

  function Held(w: Word, register: Register): Byte {
    match register
    case CommandRegister => w.command
    case AddressRegister => w.address
    case DataRegister => w.data
  }

  /** Nothing but an execute command to a ready device changes what is stored, and nothing outside
      the page or the block of the cursor. */
  lemma StorageIsSafe(m: Machine, busy: bool, t: nat, a: nat)
    requires a < STORE_SIZE && Handle(m, busy, t).store.data[a] != m.store.data[a]
    ensures !busy
    ensures || (&& m.state == ProgramAcceptingData && m.word.command == C_PROGRAM_EXECUTE
                && PageStart(a) == PageStart(m.store.cursor))
            || (&& m.state == EraseAwaitingExecute && m.word.command == C_ERASE_EXECUTE
                && BlockStart(a) == BlockStart(m.store.cursor))
  {
    OnlyThisPage(m.store, a);
    OnlyThisBlock(m.store, a);
  }

  lemma OnlyThisPage(s: StoreState, a: nat)
    requires a < STORE_SIZE
    ensures s.CopyPageFromCache().data[a] != s.data[a] ==> PageStart(a) == PageStart(s.cursor)
  {
    StartsFit(s.cursor);
    PutIsSplice(s.data, PageStart(s.cursor), s.cache);
  }

  lemma OnlyThisBlock(s: StoreState, a: nat)
    requires a < STORE_SIZE
    ensures s.EraseBlock().data[a] != s.data[a] ==> BlockStart(a) == BlockStart(s.cursor)
  {
    StartsFit(s.cursor);
    PutIsSplice(s.data, BlockStart(s.cursor), Zeros(BLOCK_SIZE));
  }

  /** The states whose test of the deadline is redundant. */
  predicate Untested(s: MachineState) {
    AwaitsAddress(s) || s == ReadAwaitingExecute
  }

  /** The machine without before_deadline() in the address states and in the state that
      awaits the first read. */
  function ReactUntested(m: Machine, e: Event): Machine {
    if e.PinReset? then Reset(m)
    else Handle(Touched(m, e), !Untested(m.state) && e.now < m.deadline, e.later)
  }

  function ReactAllUntested(m: Machine, events: seq<Event>): Machine {
    if events == [] then m
    else
      var n := |events| - 1;
      ReactUntested(ReactAllUntested(m, events[..n]), events[n])
  }

  /** Step for step the two machines are the same. */
  lemma {:induction false} TestsAreRedundant(events: seq<Event>)
    ensures ReactAllUntested(POWER_ON, events) == ReactAll(POWER_ON, events)
  {
    if events != [] {
      var n := |events| - 1;
      TestsAreRedundant(events[..n]);
      ReachableIsTidy(events[..n]);
    }
  }

  /** The other tests are needed: outside MS_INITIAL_STATE a busy device turns every access
      into a bug. */
  lemma BusyAccessIsBug(events: seq<Event>, e: Event)
    requires !e.PinReset? && e.now < ReactAll(POWER_ON, events).deadline
    ensures React(ReactAll(POWER_ON, events), e).state == Bug
  {
    ReachableIsTidy(events);
  }
}
