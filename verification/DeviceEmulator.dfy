/** The device emulator: the parser of device/de_parser.c and the pins of device/de_gpio.c,
    working on the storage, deadline and clock modules in place. */
module DeviceEmulator {
  import opened Geometry
  import opened StoreSpec
  import opened ParserSpec
  import opened Clock
  import S = Store
  import opened Bus
  import opened EndToEnd

  class DeviceEmulator {
    const clock: Clock
    const deadline: Deadline
    const store: S.Store
    var state: MachineState
    var word: Word

    ghost predicate Valid()
      reads this, store
    {
      store.Valid() && deadline.clock == clock
    }

    ghost function Repr(): set<object> {
      {this, clock, deadline, store, store.cache, store.data}
    }

    ghost function Machine(): Machine
      requires Valid()
      reads this, deadline, store, store.cache, store.data
    {
      ParserSpec.Machine(state, word, store.State(), deadline.deadline)
    }

    /** before_deadline(), if it is called now. */
    ghost predicate BusyNow()
      reads clock, deadline
    {
      clock.tick(clock.readings) < deadline.deadline
    }

    /** parser_init */
    constructor (tick: Schedule)
      ensures Valid() && fresh(Repr())
      ensures clock.tick == tick && clock.readings == 0
      ensures Machine() == POWER_ON
    {
      var c := new Clock(tick);
      clock := c;
      deadline := new Deadline(c);
      store := new S.Store();
      state := Initial;
      word := Word(0, 0, 0);
    }

    method ClearState()
      requires Valid()
      modifies Repr()
      ensures Valid() && Machine() == ParserSpec.ClearState(old(Machine()))
      ensures clock.readings == old(clock.readings)
    {
      deadline.Clear();
      store.ClearCursor();
      store.ClearCache();
    }

    /** parser_reset */
    method Reset()
      requires Valid()
      modifies Repr()
      ensures Valid() && Machine() == ParserSpec.Reset(old(Machine()))
      ensures clock.readings == old(clock.readings)
    {
      ClearState();
      state := Initial;
    }

    /** The setup commands, which every data state accepts. */
    method NewSession(command: Byte)
      requires Valid() && command == word.command
      modifies Repr()
      ensures Valid() && Machine() == ParserSpec.NewSession(old(Machine()))
      ensures clock.readings == old(clock.readings)
    {
      if command == C_READ_SETUP {
        ClearState();
        state := ReadAwaitingBlock;
      } else if command == C_PROGRAM_SETUP {
        ClearState();
        state := ProgramAwaitingBlock;
      } else if command == C_ERASE_SETUP {
        ClearState();
        state := EraseAwaitingBlock;
      } else {
        state := Bug;
      }
    }

    /** A state that waits for one address byte under the given setup command. */
    method AwaitAddress(command: Byte, setup: Byte, place: Place, next: MachineState)
      requires Valid() && command == word.command
      modifies Repr()
      ensures Valid()
      ensures Machine() == if old(BusyNow()) || command != setup then Fail(old(Machine()))
                           else TakeAddress(old(Machine()), place, next)
      ensures clock.readings == old(clock.readings) + 1
    {
      var busy := deadline.BeforeDeadline();
      if busy || command != setup {
        state := Bug;
      } else {
        store.SetCursorByte(word.address, place);
        state := next;
      }
    }

    method LoadPage()
      requires Valid()
      modifies Repr()
      ensures Valid() && Machine() == ParserSpec.LoadPage(old(Machine()), clock.tick(old(clock.readings)))
      ensures clock.readings == old(clock.readings) + 1
    {
      deadline.Set(READ_PAGE_DURATION);
      store.CopyPageToCache();
      state := ReadProvidingData;
      word := DUMMY;
    }

    method AwaitReadExecute(command: Byte)
      requires Valid() && command == word.command && state == ReadAwaitingExecute
      modifies Repr()
      ensures Valid()
      ensures Machine() == Handle(old(Machine()), old(BusyNow()), clock.tick(old(clock.readings) + 1))
      ensures clock.readings == old(clock.readings) + ReadingsTaken(old(Machine()), old(BusyNow()))
    {
      var busy := deadline.BeforeDeadline();
      if busy || command != C_READ_EXECUTE {
        state := Bug;
      } else {
        LoadPage();
      }
    }

    method ProvideByte() returns (value: Byte)
      requires Valid()
      modifies Repr()
      ensures Valid() && Machine() == ParserSpec.ProvideByte(old(Machine()))
      ensures value == old(Machine()).store.CacheByte()
      ensures clock.readings == old(clock.readings)
    {
      value := store.GetCacheByte();
      word := Word(C_DUMMY, 0, value);
      store.IncrementCursor(false);
    }

    method ProvideData(command: Byte) returns (value: Byte)
      requires Valid() && command == word.command && state == ReadProvidingData
      modifies Repr()
      ensures Valid()
      ensures Machine() == Handle(old(Machine()), old(BusyNow()), clock.tick(old(clock.readings) + 1))
      ensures clock.readings == old(clock.readings) + ReadingsTaken(old(Machine()), old(BusyNow()))
      ensures value == ReadValue(old(Machine()), old(BusyNow()))
    {
      value := word.data;
      var busy := deadline.BeforeDeadline();
      if busy {
        state := Bug;
      } else if command == C_DUMMY {
        value := ProvideByte();
      } else if command == C_READ_EXECUTE {
        LoadPage();
      } else {
        NewSession(command);
      }
    }

    method AcceptByte()
      requires Valid()
      modifies Repr()
      ensures Valid() && Machine() == ParserSpec.AcceptByte(old(Machine()))
      ensures clock.readings == old(clock.readings)
    {
      store.SetCacheByte(word.data);
      store.IncrementCursor(true);
    }

    method ProgramPage()
      requires Valid()
      modifies Repr()
      ensures Valid() && Machine() == ParserSpec.ProgramPage(old(Machine()), clock.tick(old(clock.readings)))
      ensures clock.readings == old(clock.readings) + 1
    {
      deadline.Set(WRITE_PAGE_DURATION);
      store.CopyPageFromCache();
      store.ClearCache();
      store.IncrementPage();
      word := DUMMY;
    }

    method AcceptData(command: Byte)
      requires Valid() && command == word.command && state == ProgramAcceptingData
      modifies Repr()
      ensures Valid()
      ensures Machine() == Handle(old(Machine()), old(BusyNow()), clock.tick(old(clock.readings) + 1))
      ensures clock.readings == old(clock.readings) + ReadingsTaken(old(Machine()), old(BusyNow()))
    {
      var busy := deadline.BeforeDeadline();
      if busy {
        state := Bug;
      } else if command == C_DUMMY {
        AcceptByte();
      } else if command == C_PROGRAM_EXECUTE {
        ProgramPage();
      } else {
        NewSession(command);
      }
    }

    method EraseBlock()
      requires Valid()
      modifies Repr()
      ensures Valid() && Machine() == ParserSpec.EraseBlock(old(Machine()), clock.tick(old(clock.readings)))
      ensures clock.readings == old(clock.readings) + 1
    {
      deadline.Set(ERASE_BLOCK_DURATION);
      store.EraseBlock();
      word := DUMMY;
      store.IncrementBlock();
    }

    method AwaitEraseExecute(command: Byte)
      requires Valid() && command == word.command && state == EraseAwaitingExecute
      modifies Repr()
      ensures Valid()
      ensures Machine() == Handle(old(Machine()), old(BusyNow()), clock.tick(old(clock.readings) + 1))
      ensures clock.readings == old(clock.readings) + ReadingsTaken(old(Machine()), old(BusyNow()))
    {
      var busy := deadline.BeforeDeadline();
      if busy {
        state := Bug;
      } else if command == C_ERASE_EXECUTE {
        EraseBlock();
      } else {
        NewSession(command);
      }
    }

    /** handle_watchpoint_ioregisters.  `value` is what the driver sees if the access is a read
        of the data register. */
    method HandleAccess() returns (value: Byte)
      requires Valid()
      modifies Repr()
      ensures Valid()
      ensures Machine() == Handle(old(Machine()), old(BusyNow()), clock.tick(old(clock.readings) + 1))
      ensures clock.readings == old(clock.readings) + ReadingsTaken(old(Machine()), old(BusyNow()))
      ensures value == ReadValue(old(Machine()), old(BusyNow()))
    {
      var command := word.command;
      value := word.data;
      match state
      case Initial =>
        if command == C_READ_SETUP {
          state := ReadAwaitingBlock;
        } else if command == C_PROGRAM_SETUP {
          state := ProgramAwaitingBlock;
        } else if command == C_ERASE_SETUP {
          state := EraseAwaitingBlock;
        } else {
          state := Bug;
        }
      case ReadAwaitingBlock => AwaitAddress(command, C_READ_SETUP, BlockPlace, ReadAwaitingPage);
      case ReadAwaitingPage => AwaitAddress(command, C_READ_SETUP, PagePlace, ReadAwaitingByte);
      case ReadAwaitingByte => AwaitAddress(command, C_READ_SETUP, BytePlace, ReadAwaitingExecute);
      case ReadAwaitingExecute => AwaitReadExecute(command);
      case ReadProvidingData => value := ProvideData(command);
      case ProgramAwaitingBlock => AwaitAddress(command, C_PROGRAM_SETUP, BlockPlace, ProgramAwaitingPage);
      case ProgramAwaitingPage => AwaitAddress(command, C_PROGRAM_SETUP, PagePlace, ProgramAwaitingByte);
      case ProgramAwaitingByte =>
        AwaitAddress(command, C_PROGRAM_SETUP, BytePlace, ProgramAcceptingData);
        if state == ProgramAcceptingData {
          word := DUMMY;
        }
      case ProgramAcceptingData => AcceptData(command);
      case EraseAwaitingBlock => AwaitAddress(command, C_ERASE_SETUP, BlockPlace, EraseAwaitingExecute);
      case EraseAwaitingExecute => AwaitEraseExecute(command);
      case Bug =>
    }

    /** The driver stores a byte in one of the registers. */
    method WriteRegister(register: Register, value: Byte)
      requires Valid()
      modifies Repr()
      ensures Valid()
      ensures Machine() == Handle(old(Machine()).(word := StoreRegister(old(Machine()).word, register, value)),
                                  old(BusyNow()), clock.tick(old(clock.readings) + 1))
      ensures clock.readings == old(clock.readings)
                + ReadingsTaken(old(Machine()).(word := StoreRegister(old(Machine()).word, register, value)),
                                old(BusyNow()))
    {
      match register {
        case CommandRegister => word := word.(command := value);
        case AddressRegister => word := word.(address := value);
        case DataRegister => word := word.(data := value);
      }
      var _ := HandleAccess();
    }

    /** gpio_get */
    method GpioGet(pin: nat) returns (value: nat)
      requires Valid() && (pin == PN_STATUS || pin == PN_RESET)
      modifies clock
      ensures pin == PN_STATUS ==>
                value == StatusPin(clock.tick, old(clock.readings), old(Machine()))
                && clock.readings == old(clock.readings) + 1
      ensures pin == PN_RESET ==> value == 0 && clock.readings == old(clock.readings)
    {
      if pin == PN_STATUS {
        var busy := deadline.BeforeDeadline();
        value := if busy then DEVICE_BUSY else DEVICE_READY;
      } else {
        value := 0;
      }
    }

    /** gpio_set */
    method GpioSet(pin: nat, value: nat)
      requires Valid()
      modifies Repr()
      ensures Valid()
      ensures Machine() == if pin == PN_RESET && value == 1 then ParserSpec.Reset(old(Machine())) else old(Machine())
      ensures clock.readings == old(clock.readings)
    {
      if pin == PN_RESET && value == 1 {
        Reset();
      }
    }
  }
}
