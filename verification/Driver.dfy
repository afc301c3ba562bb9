/** The driver operations of driver/alpha/alpha_0.c, acting on the device emulator. */
module Driver {
  import opened Geometry
  import opened Clock
  import opened ParserSpec
  import opened Bus
  import opened Requests
  import opened EndToEnd
  import D = DeviceEmulator

  class Driver {
    const device: D.DeviceEmulator
    /** How the device serves one action. */
    ghost const step: Device
    /** What the driver has done to the device, in order. */
    ghost var trace: seq<Action>

    ghost predicate Valid()
      reads this, device, device.store
    {
      device.Valid() && Emulates(step, device.clock.tick)
    }

    ghost function Repr(): set<object> {
      {this} + device.Repr()
    }

    /** A caller's buffer is memory of its own. */
    ghost predicate Separate(buffer: array<Byte>) {
      buffer != device.store.cache && buffer != device.store.data
    }

    ghost function World(buffer: array<Byte>): World
      requires Valid()
      reads this, device, device.store, device.Repr(), buffer
    {
      Bus.World(device.Machine(), device.clock.readings, buffer[..], trace)
    }

    constructor (tick: Schedule)
      ensures Valid() && fresh(Repr())
      ensures device.clock.tick == tick && device.clock.readings == 0
      ensures device.Machine() == POWER_ON && trace == []
    {
      device := new D.DeviceEmulator(tick);
      step := Emulator(tick);
      trace := [];
    }

    /** nand_set_register */
    method SetRegister(register: Register, value: Byte, ghost buffer: array<Byte>)
      requires Valid() && Separate(buffer)
      modifies Repr()
      ensures Valid()
      ensures Result(World(buffer), true) == step(old(World(buffer)), Set(register, value))
    {
      assert step(World(buffer), Set(register, value))
          == Perform(device.clock.tick, World(buffer), Set(register, value));
      device.WriteRegister(register, value);
      trace := trace + [Set(register, value)];
    }

    /** gpio_get(PN_STATUS) == DEVICE_READY */
    method StatusIsReady() returns (ready: bool)
      requires device.Valid()
      modifies device.clock
      ensures ready == (device.clock.tick(old(device.clock.readings)) >= device.deadline.deadline)
      ensures device.clock.readings == old(device.clock.readings) + 1
    {
      var status := device.GpioGet(PN_STATUS);
      ready := status == DEVICE_READY;
    }

    /** The loop of nand_wait: poll the status pin until it shows a ready device or the clock
        shows the timeout, and poll once more in that case.  Between two polls the driver
        sleeps, which is a matter for the clock schedule. */
    method PollStatus(timeout: nat) returns (ready: bool)
      requires device.Valid()
      modifies device.clock
      ensures Poll(ready, device.clock.readings)
           == PollFrom(device.clock.tick, device.deadline.deadline, timeout, old(device.clock.readings))
    {
      ghost var tick, due := device.clock.tick, device.deadline.deadline;
      ghost var poll := PollFrom(tick, due, timeout, device.clock.readings);
      ghost var last := Horizon(tick, timeout);
      var again := true;
      while again
        invariant again ==> poll == PollFrom(tick, due, timeout, device.clock.readings)
        invariant !again ==> poll == Poll(tick(device.clock.readings) >= due, device.clock.readings + 1)
        decreases again, last - device.clock.readings
      {
        ready, again := PollRound(timeout);
        if ready {
          return;
        }
      }
      ready := StatusIsReady();
    }

    /** One round of the loop: a poll and, if the device is busy, the loop condition. */
    method PollRound(timeout: nat) returns (ready: bool, again: bool)
      requires device.Valid()
      modifies device.clock
      ensures var tick, due, clk := device.clock.tick, device.deadline.deadline, device.clock.readings;
              PollFrom(tick, due, timeout, old(device.clock.readings))
              == if ready then Poll(true, clk)
                 else if again then PollFrom(tick, due, timeout, clk)
                 else Poll(tick(clk) >= due, clk + 1)
      ensures old(device.clock.readings) < device.clock.readings
      ensures !ready && again ==> device.clock.readings <= Horizon(device.clock.tick, timeout)
    {
      again := false;
      ready := StatusIsReady();
      if !ready {
        var t := device.clock.Now();
        again := t < timeout;
      }
    }

    /** nand_wait, which changes nothing but the number of readings, for a world w that is
        as the device is now. */
    method WaitReady(interval: nat, ghost w: World) returns (ret: int)
      requires Valid() && device.Machine() == w.m && device.clock.readings == w.clk
      modifies device.clock
      ensures ret in {0, -1}
      ensures step(w, Action.Wait(interval))
           == Result(w.(clk := device.clock.readings, trace := w.trace + [Action.Wait(interval)]), ret == 0)
    {
      WaitStep(step, device.clock.tick, w, interval);
      var t := device.clock.Now();
      var ready := PollStatus(t + interval);
      ret := if ready then 0 else -1;
    }

    /** nand_wait: 0 if the last poll saw a ready device, else -1. */
    method Wait(interval: nat, ghost buffer: array<Byte>) returns (ret: int)
      requires Valid() && Separate(buffer)
      modifies `trace, device.clock
      ensures Valid() && ret in {0, -1}
      ensures Result(World(buffer), ret == 0) == step(old(World(buffer)), Action.Wait(interval))
    {
      ret := WaitReady(interval, World(buffer));
      trace := trace + [Action.Wait(interval)];
    }

    method ReadByte(buffer: array<Byte>, p: nat)
      requires Valid() && Separate(buffer) && p < buffer.Length
      modifies Repr(), buffer
      ensures Valid()
      ensures Result(World(buffer), true) == step(old(World(buffer)), Recv(p))
    {
      assert step(World(buffer), Recv(p)) == Perform(device.clock.tick, World(buffer), Recv(p));
      var b := device.HandleAccess();
      buffer[p] := b;
      trace := trace + [Recv(p)];
    }

    method WriteByte(buffer: array<Byte>, p: nat)
      requires Valid() && Separate(buffer) && p < buffer.Length
      modifies Repr()
      ensures Valid()
      ensures Result(World(buffer), true) == step(old(World(buffer)), Send(p))
    {
      assert step(World(buffer), Send(p)) == Perform(device.clock.tick, World(buffer), Send(p));
      device.WriteRegister(DataRegister, buffer[p]);
      trace := trace + [Send(p)];
    }

    /** nand_read: `length` bytes from the data register into the buffer from `start` on. */
    method ReadBuffer(buffer: array<Byte>, start: nat, length: nat)
      requires Valid() && Separate(buffer) && start + length <= buffer.Length
      modifies Repr(), buffer
      ensures Valid()
      ensures Result(World(buffer), true) == Run(step, old(World(buffer)), Recvs(start, length))
    {
      ghost var all := Run(step, World(buffer), Recvs(start, length));
      var left := length;
      var p := start;
      while left > 0
        invariant Valid() && p + left == start + length
        invariant all == Run(step, World(buffer), Recvs(p, left))
      {
        RunStep(step, World(buffer), Recv(p), Recvs(p + 1, left - 1));
        ReadByte(buffer, p);
        left := left - 1;
        p := p + 1;
      }
    }

    /** nand_program: `length` bytes from the buffer into the data register. */
    method WriteBuffer(buffer: array<Byte>, start: nat, length: nat)
      requires Valid() && Separate(buffer) && start + length <= buffer.Length
      modifies Repr()
      ensures Valid()
      ensures Result(World(buffer), true) == Run(step, old(World(buffer)), Sends(start, length))
    {
      ghost var all := Run(step, World(buffer), Sends(start, length));
      var left := length;
      var p := start;
      while left > 0
        invariant Valid() && p + left == start + length
        invariant all == Run(step, World(buffer), Sends(p, left))
      {
        RunStep(step, World(buffer), Send(p), Sends(p + 1, left - 1));
        WriteByte(buffer, p);
        left := left - 1;
        p := p + 1;
      }
    }
  }
}
