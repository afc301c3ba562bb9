/** What a driver can do to the device, one action after the other, and what comes of it. */
module Bus {
  import opened Geometry
  import opened Clock
  import opened ParserSpec

  datatype Register = CommandRegister | AddressRegister | DataRegister

  /** One step of a driver.  Send and Recv transfer one byte between the data register and
      the given index of the caller's buffer; Wait is a whole nand_wait call.  Unknown is an
      instruction that the interpreter does not recognise. */
  datatype Action =
    | Set(register: Register, value: Byte)
    | Send(src: nat)
    | Recv(dst: nat)
    | Wait(interval: nat)
    | Unknown

  /** The device, the number of clock readings so far, the caller's buffer, and the actions
      that the driver has performed so far, in order. */
  datatype World = World(m: Machine, clk: nat, buf: seq<Byte>, trace: seq<Action>)

  /** ok means that the driver has not returned early. */
  datatype Result = Result(world: World, ok: bool)

  function StoreRegister(w: Word, register: Register, value: Byte): Word {
    match register
    case CommandRegister => w.(command := value)
    case AddressRegister => w.(address := value)
    case DataRegister => w.(data := value)
  }

  /** before_deadline at the next reading of the clock. */
  ghost predicate Busy(tick: Schedule, w: World) {
    tick(w.clk) < w.m.deadline
  }

  /** What gpio_get(PN_STATUS) answers if it reads the clock for the time number clk. */
  function StatusPin(tick: Schedule, clk: nat, m: Machine): nat {
    if tick(clk) < m.deadline then DEVICE_BUSY else DEVICE_READY
  }

  /** The driver touches the IO word and the device handles the access. */
  ghost function Access(tick: Schedule, w: World): (r: World)
    ensures r.buf == w.buf && w.clk <= r.clk
  {
    w.(m := Handle(w.m, Busy(tick, w), tick(w.clk + 1)),
       clk := w.clk + ReadingsTaken(w.m, Busy(tick, w)))
  }

  ghost function SetRegister(tick: Schedule, w: World, register: Register, value: Byte): (r: World)
    ensures r.buf == w.buf && w.clk <= r.clk
  {
    Access(tick, w.(m := w.m.(word := StoreRegister(w.m.word, register, value))))
  }

  datatype Poll = Poll(ready: bool, clk: nat)

  /** The do-while loop of nand_wait from its poll of the status pin on.  Each round reads the
      clock twice: in the device for the status pin, and in the loop condition. */
  ghost function PollFrom(tick: Schedule, deadline: nat, timeout: nat, clk: nat): (p: Poll)
    ensures clk < p.clk
    decreases if clk <= Horizon(tick, timeout) then Horizon(tick, timeout) - clk + 1 else 0
  {
    if tick(clk) >= deadline then Poll(true, clk + 1)
    else if tick(clk + 1) < timeout then PollFrom(tick, deadline, timeout, clk + 2)
    else Poll(tick(clk + 2) >= deadline, clk + 3)
  }

  /** nand_wait */
  ghost function NandWait(tick: Schedule, w: World, interval: nat): (r: Result)
    ensures r.world.m == w.m && r.world.buf == w.buf && w.clk < r.world.clk
  {
    var p := PollFrom(tick, w.m.deadline, tick(w.clk) + interval, w.clk + 1);
    Result(w.(clk := p.clk), p.ready)
  }

  /** What one action does, apart from its being recorded.  An index outside the caller's
      buffer is undefined behaviour in C; here such a Send stores 0 and such a Recv leaves the
      buffer alone. */
  ghost function Effect(tick: Schedule, w: World, a: Action): (r: Result)
    ensures |r.world.buf| == |w.buf| && w.clk <= r.world.clk
  {
    match a
    case Set(register, value) => Result(SetRegister(tick, w, register, value), true)
    case Send(src) =>
      var b := if src < |w.buf| then w.buf[src] else 0;
      Result(SetRegister(tick, w, DataRegister, b), true)
    case Recv(dst) =>
      var r := Access(tick, w);
      var b := ReadValue(w.m, Busy(tick, w));
      Result(if dst < |w.buf| then r.(buf := w.buf[dst := b]) else r, true)
    case Wait(interval) => NandWait(tick, w, interval)
    case Unknown => Result(w, false)
  }

  /** An unknown instruction does nothing, so there is nothing to record. */
  function Recorded(a: Action): seq<Action> {
    if a.Unknown? then [] else [a]
  }

  ghost function Perform(tick: Schedule, w: World, a: Action): (r: Result)
    ensures |r.world.buf| == |w.buf| && w.clk <= r.world.clk
  {
    var r := Effect(tick, w, a);
    r.(world := r.world.(trace := w.trace + Recorded(a)))
  }

  /** Anything that can serve a driver's actions. */
  type Device = (World, Action) -> Result

  /** The device emulator under the given clock schedule. */
  ghost predicate Emulates(device: Device, tick: Schedule) {
    forall w: World, a: Action {:trigger Perform(tick, w, a)} :: device(w, a) == Perform(tick, w, a)
  }

  ghost function Emulator(tick: Schedule): (device: Device)
    ensures Emulates(device, tick)
  {
    (w: World, a: Action) => Perform(tick, w, a)
  }

  /** One wait takes some readings of the clock, is recorded and leaves everything else. */
  lemma WaitStep(step: Device, tick: Schedule, w: World, interval: nat)
    requires Emulates(step, tick)
    ensures var p := PollFrom(tick, w.m.deadline, tick(w.clk) + interval, w.clk + 1);
            step(w, Wait(interval)) == Result(w.(clk := p.clk, trace := w.trace + [Wait(interval)]), p.ready)
  {
    assert step(w, Wait(interval)) == Perform(tick, w, Wait(interval));
  }

  /** All actions in order, up to the first that makes the driver give up. */
  ghost function Run(device: Device, w: World, actions: seq<Action>): Result
    decreases |actions|
  {
    if actions == [] then Result(w, true)
    else
      var r := device(w, actions[0]);
      if r.ok then Run(device, r.world, actions[1..]) else r
  }

  /** Run(a + b) is Run(b) after Run(a), unless the driver has already given up in a. */
  lemma {:induction false} RunAppend(device: Device, w: World, a: seq<Action>, b: seq<Action>)
    ensures var r := Run(device, w, a);
            Run(device, w, a + b) == if r.ok then Run(device, r.world, b) else r
    decreases |a|
  {
    if a == [] {
      assert a + b == b;
    } else {
      assert (a + b)[1..] == a[1..] + b;
      var r := device(w, a[0]);
      if r.ok {
        RunAppend(device, r.world, a[1..], b);
      }
    }
  }

  lemma RunStep(device: Device, w: World, a: Action, rest: seq<Action>)
    ensures var r := device(w, a);
            Run(device, w, [a] + rest) == if r.ok then Run(device, r.world, rest) else r
  {
    assert ([a] + rest)[1..] == rest;
  }

  /** The actions that a run performs: all of them, or those up to the first that makes the
      driver give up. */
  ghost function Performed(device: Device, w: World, actions: seq<Action>): (s: seq<Action>)
    decreases |actions|
  {
    if actions == [] then []
    else
      var r := device(w, actions[0]);
      Recorded(actions[0]) + if r.ok then Performed(device, r.world, actions[1..]) else []
  }

  /** A device on which only waits and unknown instructions make the driver give up, the
      latter always. */
  ghost predicate OnlyWaitsFail(device: Device) {
    && (forall w: World, a: Action :: !device(w, a).ok ==> a.Wait? || a.Unknown?)
    && (forall w: World :: !device(w, Unknown).ok)
  }

  lemma EmulatorOnlyFailsWaits(device: Device, tick: Schedule)
    requires Emulates(device, tick)
    ensures OnlyWaitsFail(device)
  {
    forall w: World, a: Action
      ensures !device(w, a).ok ==> a.Wait? || a.Unknown?
      ensures !device(w, Unknown).ok
    {
      assert device(w, a) == Perform(tick, w, a);
      assert device(w, Unknown) == Perform(tick, w, Unknown);
    }
  }

  /** What is performed is all that comes before action k, at which the driver gives up, and
      action k itself unless it is unknown.  If the driver does not give up, it is the whole
      list. */
  lemma {:induction false} PerformedIsPrefix(device: Device, w: World, actions: seq<Action>) returns (k: nat)
    requires OnlyWaitsFail(device)
    ensures k <= |actions| && Run(device, w, actions[..k]).ok
    ensures Run(device, w, actions).ok <==> k == |actions|
    ensures k < |actions| ==>
              && !device(Run(device, w, actions[..k]).world, actions[k]).ok
              && (actions[k].Wait? || actions[k].Unknown?)
    ensures Performed(device, w, actions) == actions[..k] + if k < |actions| then Recorded(actions[k]) else []
    decreases |actions|
  {
    if actions == [] {
      k := 0;
    } else {
      var r := device(w, actions[0]);
      if r.ok {
        var j := PerformedIsPrefix(device, r.world, actions[1..]);
        k := j + 1;
        assert actions[..k] == [actions[0]] + actions[1..][..j];
        RunStep(device, w, actions[0], actions[1..][..j]);
      } else {
        k := 0;
      }
    }
  }

  lemma {:induction false} PerformedAppend(device: Device, w: World, a: seq<Action>, b: seq<Action>)
    requires Run(device, w, a).ok
    ensures Performed(device, w, a + b) == Performed(device, w, a) + Performed(device, Run(device, w, a).world, b)
    decreases |a|
  {
    if a == [] {
      assert a + b == b;
    } else {
      assert (a + b)[1..] == a[1..] + b;
      PerformedAppend(device, device(w, a[0]).world, a[1..], b);
    }
  }

  lemma StepRecords(device: Device, tick: Schedule, w: World, a: Action)
    requires Emulates(device, tick)
    ensures device(w, a).world.trace == w.trace + Recorded(a)
    ensures device(w, a).ok ==> Recorded(a) == [a]
  {
    assert device(w, a) == Perform(tick, w, a);
  }

  /** On the emulator the record grows by what is performed, which is the whole list if the
      driver does not give up. */
  lemma {:induction false} RunRecords(device: Device, tick: Schedule, w: World, actions: seq<Action>)
    requires Emulates(device, tick)
    ensures Run(device, w, actions).world.trace == w.trace + Performed(device, w, actions)
    ensures Run(device, w, actions).ok ==> Performed(device, w, actions) == actions
    decreases |actions|
  {
    if actions != [] {
      StepRecords(device, tick, w, actions[0]);
      var r := device(w, actions[0]);
      if r.ok {
        RunRecords(device, tick, r.world, actions[1..]);
      }
    }
  }
}
