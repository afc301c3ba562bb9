/** How long the device is busy: from each execute command on for exactly as long as the command
    takes, so that no driver can be served faster. */
module BusyTimes {
  import opened Geometry
  import opened Clock
  import opened ParserSpec
  import opened Bus
  import opened Requests
  import opened MirrorSpec
  import opened WaitLoop
  import opened Sessions
  import opened EndToEnd
  import W = WriteRefinement
  import R = ReadRefinement
  import E = EraseRefinement

  function Duration(execute: Byte): nat {
    if execute == C_READ_EXECUTE then READ_PAGE_DURATION
    else if execute == C_PROGRAM_EXECUTE then WRITE_PAGE_DURATION
    else ERASE_BLOCK_DURATION
  }

  /** The states in which a device that is ready executes the given command. */
  predicate Executes(state: MachineState, execute: Byte) {
    || (execute == C_READ_EXECUTE && state in {ReadAwaitingExecute, ReadProvidingData})
    || (execute == C_PROGRAM_EXECUTE && state == ProgramAcceptingData)
    || (execute == C_ERASE_EXECUTE && state == EraseAwaitingExecute)
  }

  /** The device takes its second reading of the clock as the beginning of the execution.  It
      overwrites the IO word, so that the command is executed once. */
  lemma Executed(device: Device, tick: Schedule, w: World, execute: Byte)
    requires Emulates(device, tick) && Executes(w.m.state, execute) && !Busy(tick, w)
    ensures var r := device(w, Command(execute));
            && r.ok && r.world.clk == w.clk + 2
            && r.world.m.deadline == tick(w.clk + 1) + Duration(execute)
            && r.world.m.word == DUMMY
            && Executes(r.world.m.state, execute)
  {
    var r := Perform(tick, w, Command(execute));
  }

  /** In these states and in no others a ready device accepts the command. */
  lemma ExecutesExactly(device: Device, tick: Schedule, w: World, execute: Byte)
    requires Emulates(device, tick) && !Busy(tick, w)
    requires execute in {C_READ_EXECUTE, C_PROGRAM_EXECUTE, C_ERASE_EXECUTE}
    ensures device(w, Command(execute)).world.m.state != Bug <==> Executes(w.m.state, execute)
  {
    var r := Perform(tick, w, Command(execute));
  }

  predicate Touches(a: Action) {
    a.Set? || a.Send? || a.Recv?
  }

  lemma BusyTouch(device: Device, tick: Schedule, w: World, a: Action)
    requires Emulates(device, tick) && w.m.state != Initial && Busy(tick, w) && Touches(a)
    ensures device(w, a).world.m.state == Bug
  {
    var r := Perform(tick, w, a);
  }

  /** From the execute command on, at any later reading k of the clock: the status pin shows a busy
      device, and every access is a bug, if and only if less time has passed than the command takes;
      after that the next execute command is accepted. */
  lemma BusyExactlyForDuration(device: Device, tick: Schedule, w: World, execute: Byte, k: nat, a: Action)
    requires Emulates(device, tick) && Executes(w.m.state, execute) && !Busy(tick, w) && Touches(a)
    ensures var v := device(w, Command(execute)).world.(clk := k);
            var early := tick(k) < tick(w.clk + 1) + Duration(execute);
            && StatusPin(tick, k, v.m) == (if early then DEVICE_BUSY else DEVICE_READY)
            && (early ==> device(v, a).world.m.state == Bug)
            && (device(v, Command(execute)).world.m.state == Bug <==> early)
  {
    Executed(device, tick, w, execute);
    var v := device(w, Command(execute)).world.(clk := k);
    if Busy(tick, v) {
      BusyTouch(device, tick, v, a);
      BusyTouch(device, tick, v, Command(execute));
    } else {
      Executed(device, tick, v, execute);
    }
  }

  /** After an erase execute there is nothing to transfer: any data access is a bug. */
  lemma NoDataAfterErase(device: Device, tick: Schedule, w: World, k: nat, a: Action)
    requires Emulates(device, tick) && w.m.state == EraseAwaitingExecute && !Busy(tick, w)
    requires a.Send? || a.Recv?
    ensures device(device(w, Command(C_ERASE_EXECUTE)).world.(clk := k), a).world.m.state == Bug
  {
    Executed(device, tick, w, C_ERASE_EXECUTE);
    var v := device(w, Command(C_ERASE_EXECUTE)).world.(clk := k);
    var r := Perform(tick, v, a);
  }

  /** nand_wait after an execute command, with any timeout: it returns 0 if and only if the time
      that the command takes had passed when it polled the device for the last time. */
  lemma WaitTellsTheTruth(device: Device, tick: Schedule, w: World, execute: Byte, interval: nat)
    requires Emulates(device, tick) && Executes(w.m.state, execute) && !Busy(tick, w)
    ensures var r := device(device(w, Command(execute)).world, Wait(interval));
            && 0 < r.world.clk
            && (r.ok <==> tick(r.world.clk - 1) >= tick(w.clk + 1) + Duration(execute))
  {
    Executed(device, tick, w, execute);
    var v := device(w, Command(execute)).world;
    LastPoll(tick, v.m.deadline, tick(v.clk) + interval, v.clk + 1);
    var r := Perform(tick, v, Wait(interval));
  }

  // The framework waits after each execute command, and just long enough.

  predicate IsExecute(a: Action) {
    a.Set? && a.register == CommandRegister && a.value in {C_READ_EXECUTE, C_PROGRAM_EXECUTE, C_ERASE_EXECUTE}
  }

  /** Each execute command is followed by a wait, whose timeout is the duration of the command and
      one polling interval; there are no other waits. */
  predicate Paced(s: seq<Action>) {
    s == []
    || (if IsExecute(s[0]) then
          |s| > 1 && s[1] == Wait(Duration(s[0].value) + NAND_POLL_INTERVAL_US) && Paced(s[2..])
        else
          !s[0].Wait? && Paced(s[1..]))
  }

  lemma {:induction false} PacedAppend(s: seq<Action>, t: seq<Action>)
    requires Paced(s) && Paced(t)
    ensures Paced(s + t)
  {
    if s == [] {
      assert s + t == t;
    } else if IsExecute(s[0]) {
      assert (s + t)[2..] == s[2..] + t;
      PacedAppend(s[2..], t);
    } else {
      assert (s + t)[1..] == s[1..] + t;
      PacedAppend(s[1..], t);
    }
  }

  lemma {:induction false} TransfersPaced(start: nat, n: nat)
    ensures Paced(Sends(start, n)) && Paced(Recvs(start, n))
    decreases n
  {
    if n > 0 {
      TransfersPaced(start + 1, n - 1);
      assert Sends(start, n)[1..] == Sends(start + 1, n - 1);
      assert Recvs(start, n)[1..] == Recvs(start + 1, n - 1);
    }
  }

  lemma PairsPaced()
    ensures Paced(W.EXECUTE_AND_WAIT) && Paced(R.EXECUTE_AND_WAIT) && Paced(E.EXECUTE_AND_WAIT)
  {
    assert W.EXECUTE_AND_WAIT[2..] == R.EXECUTE_AND_WAIT[2..] == E.EXECUTE_AND_WAIT[2..] == [];
  }

  lemma {:induction false} WriteBodyPaced(a: nat, start: nat, left: nat)
    ensures Paced(WriteBody(a, start, left))
    decreases left
  {
    if left > 0 {
      var n := Chunk(a, left);
      WriteBodyPaced(a + n, start + n, left - n);
      TransfersPaced(start, n);
      PairsPaced();
      W.WriteBodyUnfolds(a, start, left);
      PacedAppend(Sends(start, n), W.EXECUTE_AND_WAIT);
      PacedAppend(Sends(start, n) + W.EXECUTE_AND_WAIT, WriteBody(a + n, start + n, left - n));
    }
  }

  lemma {:induction false} ReadBodyPaced(a: nat, start: nat, left: nat)
    ensures Paced(ReadBody(a, start, left))
    decreases left
  {
    if left > 0 {
      var n := Chunk(a, left);
      ReadBodyPaced(a + n, start + n, left - n);
      TransfersPaced(start, n);
      PairsPaced();
      R.ReadBodyUnfolds(a, start, left);
      PacedAppend(R.EXECUTE_AND_WAIT, Recvs(start, n));
      PacedAppend(R.EXECUTE_AND_WAIT + Recvs(start, n), ReadBody(a + n, start + n, left - n));
    }
  }

  lemma {:induction false} EraseBodyPaced(blocks: nat)
    ensures Paced(EraseBody(blocks))
  {
    if blocks > 0 {
      EraseBodyPaced(blocks - 1);
      PairsPaced();
      PacedAppend(E.EXECUTE_AND_WAIT, EraseBody(blocks - 1));
    }
  }

  lemma PreamblesPaced(setup: Byte, offset: nat)
    requires IsSetup(setup)
    ensures Paced(Preamble(setup, offset))
    ensures Paced([Command(setup), Address(ToByte(offset / BLOCK_SIZE))])
  {
    NothingToPace(Preamble(setup, offset));
    NothingToPace([Command(setup), Address(ToByte(offset / BLOCK_SIZE))]);
  }

  lemma {:induction false} NothingToPace(s: seq<Action>)
    requires forall i :: 0 <= i < |s| ==> !IsExecute(s[i]) && !s[i].Wait?
    ensures Paced(s)
  {
    if s != [] {
      NothingToPace(s[1..]);
    }
  }

  /** Every request is paced. */
  lemma RequestsArePaced(request: Request)
    ensures Paced(request.Actions())
  {
    match request
    case Write(bytes, offset) =>
      PreamblesPaced(C_PROGRAM_SETUP, offset);
      WriteBodyPaced(offset, 0, |bytes|);
      PacedAppend(Preamble(C_PROGRAM_SETUP, offset), WriteBody(offset, 0, |bytes|));
    case Read(buffer, offset) =>
      PreamblesPaced(C_READ_SETUP, offset);
      ReadBodyPaced(offset, 0, |buffer|);
      PacedAppend(Preamble(C_READ_SETUP, offset), ReadBody(offset, 0, |buffer|));
    case Erase(offset, size) =>
      PreamblesPaced(C_ERASE_SETUP, offset);
      EraseBodyPaced(BlockCount(offset, size));
      PacedAppend([Command(C_ERASE_SETUP), Address(ToByte(offset / BLOCK_SIZE))], EraseBody(BlockCount(offset, size)));
  }

  // No request is served faster than the device executes.

  lemma {:induction false} ClockGoesOn(device: Device, tick: Schedule, w: World, actions: seq<Action>)
    requires Emulates(device, tick)
    ensures w.clk <= Run(device, w, actions).world.clk
    decreases |actions|
  {
    if actions != [] {
      var r := Perform(tick, w, actions[0]);
      if r.ok {
        ClockGoesOn(device, tick, device(w, actions[0]).world, actions[1..]);
      }
    }
  }

  /** An execute command and a wait that returns 0 take the time of the command. */
  lemma ExecuteAndWait(device: Device, tick: Schedule, w: World, execute: Byte, interval: nat)
    requires Emulates(device, tick) && Executes(w.m.state, execute) && !Busy(tick, w)
    ensures var r := Run(device, w, [Command(execute), Wait(interval)]);
            r.ok ==> tick(r.world.clk) >= tick(w.clk) + Duration(execute)
  {
    var v := device(w, Command(execute)).world;
    Executed(device, tick, w, execute);
    WaitTellsTheTruth(device, tick, w, execute, interval);
    assert [Command(execute), Wait(interval)] == [Command(execute)] + ([Wait(interval)] + []);
    RunStep(device, w, Command(execute), [Wait(interval)] + []);
    RunStep(device, v, Wait(interval), []);
  }

  lemma FirstPageWritten(device: Device, tick: Schedule, w: World, a: nat, start: nat, left: nat) returns (v: World)
    requires Emulates(device, tick) && W.Accepting(tick, w) && start + left <= |w.buf| && 0 < left
    ensures var n := Chunk(a, left);
            && Run(device, w, WriteBody(a, start, left)) == Run(device, v, WriteBody(a + n, start + n, left - n))
            && W.Accepting(tick, v) && v.buf == w.buf
            && tick(v.clk) >= tick(w.clk) + WRITE_PAGE_DURATION
  {
    var n := Chunk(a, left);
    var u := Run(device, w, Sends(start, n)).world;
    W.SendsFillCache(device, tick, w, start, n);
    ClockGoesOn(device, tick, w, Sends(start, n));
    v := Run(device, u, W.EXECUTE_AND_WAIT).world;
    W.ProgramOnePage(device, tick, u);
    ExecuteAndWait(device, tick, u, C_PROGRAM_EXECUTE, TIMEOUT_WRITE_PAGE_US);
    W.WriteBodyUnfolds(a, start, left);
    RunAppend(device, w, Sends(start, n), W.EXECUTE_AND_WAIT);
    RunAppend(device, w, Sends(start, n) + W.EXECUTE_AND_WAIT, WriteBody(a + n, start + n, left - n));
  }

  lemma {:induction false} WriteBodyTakesTime(device: Device, tick: Schedule, w: World, a: nat, start: nat, left: nat)
    requires Emulates(device, tick) && W.Accepting(tick, w) && start + left <= |w.buf| && 0 < left
    ensures tick(Run(device, w, WriteBody(a, start, left)).world.clk)
         >= tick(w.clk) + PageCount(a, left) * WRITE_PAGE_DURATION
    decreases left
  {
    var n := Chunk(a, left);
    var v := FirstPageWritten(device, tick, w, a, start, left);
    OnePageLess(a, left);
    if n < left {
      WriteBodyTakesTime(device, tick, v, a + n, start + n, left - n);
    } else {
      assert WriteBody(a + n, start + n, 0) == [];
    }
  }

  lemma FirstPageRead(device: Device, tick: Schedule, w: World, a: nat, start: nat, left: nat) returns (v: World)
    requires Emulates(device, tick) && R.Fetching(tick, w) && start + left <= |w.buf| && 0 < left
    ensures var n := Chunk(a, left);
            && Run(device, w, ReadBody(a, start, left)) == Run(device, v, ReadBody(a + n, start + n, left - n))
            && R.Fetching(tick, v) && |v.buf| == |w.buf|
            && tick(v.clk) >= tick(w.clk) + READ_PAGE_DURATION
  {
    var n := Chunk(a, left);
    var u := Run(device, w, R.EXECUTE_AND_WAIT).world;
    R.LoadOnePage(device, tick, w);
    ExecuteAndWait(device, tick, w, C_READ_EXECUTE, TIMEOUT_READ_PAGE_US);
    v := Run(device, u, Recvs(start, n)).world;
    R.RecvsDrainCache(device, tick, u, start, n);
    ClockGoesOn(device, tick, u, Recvs(start, n));
    R.ReadBodyUnfolds(a, start, left);
    RunAppend(device, w, R.EXECUTE_AND_WAIT, Recvs(start, n));
    RunAppend(device, w, R.EXECUTE_AND_WAIT + Recvs(start, n), ReadBody(a + n, start + n, left - n));
  }

  lemma {:induction false} ReadBodyTakesTime(device: Device, tick: Schedule, w: World, a: nat, start: nat, left: nat)
    requires Emulates(device, tick) && R.Fetching(tick, w) && start + left <= |w.buf| && 0 < left
    ensures tick(Run(device, w, ReadBody(a, start, left)).world.clk)
         >= tick(w.clk) + PageCount(a, left) * READ_PAGE_DURATION
    decreases left
  {
    var n := Chunk(a, left);
    var v := FirstPageRead(device, tick, w, a, start, left);
    OnePageLess(a, left);
    if n < left {
      ReadBodyTakesTime(device, tick, v, a + n, start + n, left - n);
    } else {
      assert ReadBody(a + n, start + n, 0) == [];
    }
  }

  lemma {:induction false} EraseBodyTakesTime(device: Device, tick: Schedule, w: World, blocks: nat)
    requires Emulates(device, tick) && E.Erasing(tick, w)
    ensures tick(Run(device, w, EraseBody(blocks)).world.clk) >= tick(w.clk) + blocks * ERASE_BLOCK_DURATION
    decreases blocks
  {
    if blocks > 0 {
      var v := Run(device, w, E.EXECUTE_AND_WAIT).world;
      E.EraseOneBlock(device, tick, w);
      ExecuteAndWait(device, tick, w, C_ERASE_EXECUTE, TIMEOUT_ERASE_BLOCK_US);
      RunAppend(device, w, E.EXECUTE_AND_WAIT, EraseBody(blocks - 1));
      EraseBodyTakesTime(device, tick, v, blocks - 1);
    }
  }

  /** The time that the device is busy for a request. */
  function BusyTime(request: Request): nat {
    match request
    case Write(bytes, offset) => PageCount(offset, |bytes|) * WRITE_PAGE_DURATION
    case Read(buffer, offset) => PageCount(offset, |buffer|) * READ_PAGE_DURATION
    case Erase(offset, size) => BlockCount(offset, size) * ERASE_BLOCK_DURATION
  }

  /** A request from any idle device takes at least the time of all the pages or blocks that it
      touches. */
  lemma RequestTakesTime(device: Device, tick: Schedule, w: World, request: Request)
    requires Emulates(device, tick) && Idle(tick, w) && request.Size() > 0
    ensures tick(Serve(device, w, request).world.clk) >= tick(w.clk) + BusyTime(request)
  {
    var v := w.(buf := request.Buffer());
    match request
    case Write(bytes, offset) =>
      Open(device, tick, v, C_PROGRAM_SETUP, offset);
      ClockGoesOn(device, tick, v, Preamble(C_PROGRAM_SETUP, offset));
      RunAppend(device, v, Preamble(C_PROGRAM_SETUP, offset), WriteBody(offset, 0, |bytes|));
      WriteBodyTakesTime(device, tick, Run(device, v, Preamble(C_PROGRAM_SETUP, offset)).world, offset, 0, |bytes|);
    case Read(buffer, offset) =>
      Open(device, tick, v, C_READ_SETUP, offset);
      ClockGoesOn(device, tick, v, Preamble(C_READ_SETUP, offset));
      RunAppend(device, v, Preamble(C_READ_SETUP, offset), ReadBody(offset, 0, |buffer|));
      ReadBodyTakesTime(device, tick, Run(device, v, Preamble(C_READ_SETUP, offset)).world, offset, 0, |buffer|);
    case Erase(offset, size) =>
      EraseTakesTime(device, tick, v, offset, BlockCount(offset, size));
  }

  lemma EraseTakesTime(device: Device, tick: Schedule, w: World, offset: nat, blocks: nat)
    requires Emulates(device, tick) && Idle(tick, w)
    ensures tick(Run(device, w, EraseSession(offset, blocks)).world.clk)
         >= tick(w.clk) + blocks * ERASE_BLOCK_DURATION
  {
    var first := ToByte(offset / BLOCK_SIZE);
    var setup := [Command(C_ERASE_SETUP), Address(first)];
    var u := device(w, Command(C_ERASE_SETUP)).world;
    Begin(device, tick, w, C_ERASE_SETUP);
    OneAddress(device, tick, u, C_ERASE_SETUP, EraseAwaitingBlock, first);
    assert setup == [Command(C_ERASE_SETUP)] + ([Address(first)] + []);
    RunStep(device, w, Command(C_ERASE_SETUP), [Address(first)] + []);
    RunStep(device, u, Address(first), []);
    ClockGoesOn(device, tick, w, setup);
    RunAppend(device, w, setup, EraseBody(blocks));
    EraseBodyTakesTime(device, tick, Run(device, w, setup).world, blocks);
  }

  function TotalBusyTime(requests: seq<Request>): nat {
    if requests == [] then 0
    else
      var n := |requests| - 1;
      TotalBusyTime(requests[..n]) + BusyTime(requests[n])
  }

  /** Busy times add up: no clock, however its readings fall, lets a sequence of requests be served
      in less time than its pages and blocks take. */
  lemma {:induction false} RequestsTakeTime(device: Device, tick: Schedule, start: World, requests: seq<Request>)
    requires Emulates(device, tick) && Idle(tick, start) && NoneEmpty(requests)
    ensures tick(ServeAll(device, start, requests).world.clk) >= tick(start.clk) + TotalBusyTime(requests)
  {
    if requests != [] {
      var n := |requests| - 1;
      RequestsTakeTime(device, tick, start, requests[..n]);
      ServeAllAgrees(device, tick, start, requests[..n]);
      RequestTakesTime(device, tick, ServeAll(device, start, requests[..n]).world, requests[n]);
    }
  }
}
