/** The instruction interpreter of driver/foxtrot/foxtrot_0.c. */
module ExecOp {
  import opened Geometry
  import opened Bus
  import opened Requests
  import D = Driver

  /** struct nand_op_instr.  A data instruction names the part of the caller's buffer that its
      pointer and length denote.  Other is any type the interpreter does not know. */
  datatype Instr =
    | Cmd(opcode: Byte)
    | Addr(addrs: seq<Byte>)
    | DataIn(start: nat, len: nat)
    | DataOut(start: nat, len: nat)
    | WaitRdy(timeout: nat)
    | Other

  function AddressActions(addrs: seq<Byte>): seq<Action> {
    if addrs == [] then [] else [Address(addrs[0])] + AddressActions(addrs[1..])
  }

  function Effects(i: Instr): seq<Action> {
    match i
    case Cmd(opcode) => [Command(opcode)]
    case Addr(addrs) => AddressActions(addrs)
    case DataIn(start, len) => Sends(start, len)
    case DataOut(start, len) => Recvs(start, len)
    case WaitRdy(timeout) => [Wait(timeout)]
    case Other => [Unknown]
  }

  /** The actions of an operation, instruction after instruction. */
  function Flatten(p: seq<Instr>): seq<Action> {
    if p == [] then [] else Effects(p[0]) + Flatten(p[1..])
  }

  ghost predicate InBuffer(i: Instr, length: nat) {
    i.DataIn? || i.DataOut? ==> i.start + i.len <= length
  }

  ghost predicate AllInBuffer(p: seq<Instr>, length: nat) {
    forall k :: 0 <= k < |p| ==> InBuffer(p[k], length)
  }

  method SendAddresses(driver: D.Driver, addrs: seq<Byte>, ghost buffer: array<Byte>)
    requires driver.Valid() && driver.Separate(buffer)
    modifies driver.Repr()
    ensures driver.Valid()
    ensures Result(driver.World(buffer), true)
         == Run(driver.step, old(driver.World(buffer)), AddressActions(addrs))
  {
    ghost var all := Run(driver.step, driver.World(buffer), AddressActions(addrs));
    for j := 0 to |addrs|
      invariant driver.Valid()
      invariant all == Run(driver.step, driver.World(buffer), AddressActions(addrs[j..]))
    {
      assert addrs[j..][1..] == addrs[j + 1..];
      RunStep(driver.step, driver.World(buffer), Address(addrs[j]), AddressActions(addrs[j + 1..]));
      driver.SetRegister(AddressRegister, addrs[j], buffer);
    }
  }

  /** One turn of the interpreter. */
  method ExecInstr(driver: D.Driver, command: Instr, buffer: array<Byte>) returns (ret: int)
    requires driver.Valid() && driver.Separate(buffer) && InBuffer(command, buffer.Length)
    modifies driver.Repr(), buffer
    ensures driver.Valid() && ret in {0, -1}
    ensures Result(driver.World(buffer), ret == 0)
         == Run(driver.step, old(driver.World(buffer)), Effects(command))
  {
    ret := 0;
    ghost var w := driver.World(buffer);
    match command
    case Cmd(opcode) =>
      OneStep(driver.step, w, Command(opcode));
      driver.SetRegister(CommandRegister, opcode, buffer);
    case Addr(addrs) =>
      SendAddresses(driver, addrs, buffer);
    case DataIn(start, len) =>
      driver.WriteBuffer(buffer, start, len);
    case DataOut(start, len) =>
      driver.ReadBuffer(buffer, start, len);
    case WaitRdy(timeout) =>
      OneStep(driver.step, w, Wait(timeout));
      ret := driver.Wait(timeout, buffer);
    case Other =>
      OneStep(driver.step, w, Unknown);
      assert driver.step(w, Unknown) == Perform(driver.device.clock.tick, w, Unknown);
      ret := -1;
  }

  lemma OneStep(step: Device, w: World, a: Action)
    ensures Run(step, w, [a]) == step(w, a)
  {
    assert [a] == [a] + [];
    RunStep(step, w, a, []);
  }

  /** The actions in done are those of the instructions before instruction k and of instruction
      k itself, if that is a wait.  The interpreter stops at an unknown instruction or at a wait
      that times out, or else at the end. */
  predicate StopsAt(p: seq<Instr>, k: nat, done: seq<Action>) {
    && k <= |p|
    && (forall j :: 0 <= j < k ==> !p[j].Other?)
    && (k < |p| ==> p[k].WaitRdy? || p[k].Other?)
    && done == Flatten(if k < |p| && p[k].WaitRdy? then p[..k + 1] else p[..k])
  }

  /** exec_op */
  method ExecOp(driver: D.Driver, commands: array<Instr>, ninstrs: nat, buffer: array<Byte>) returns (ret: int)
    requires driver.Valid() && driver.Separate(buffer) && ninstrs <= commands.Length
    requires AllInBuffer(commands[..ninstrs], buffer.Length)
    modifies driver.Repr(), buffer
    ensures driver.Valid() && ret in {0, -1}
    ensures Result(driver.World(buffer), ret == 0)
         == Run(driver.step, old(driver.World(buffer)), Flatten(old(commands[..ninstrs])))
    ensures driver.trace
         == old(driver.trace)
          + Performed(driver.step, old(driver.World(buffer)), Flatten(old(commands[..ninstrs])))
    ensures ret == 0 ==> driver.trace == old(driver.trace) + Flatten(old(commands[..ninstrs]))
    ensures exists k: nat ::
              && StopsAt(old(commands[..ninstrs]), k, driver.trace[|old(driver.trace)|..])
              && (ret == 0 <==> k == ninstrs)
  {
    ghost var p := commands[..ninstrs];
    RunRecords(driver.step, driver.device.clock.tick, driver.World(buffer), Flatten(p));
    EmulatorOnlyFailsWaits(driver.step, driver.device.clock.tick);
    ghost var k := PrefixLaw(driver.step, driver.World(buffer), p);
    ret := Interpret(driver, commands, ninstrs, buffer);
    assert StopsAt(p, k, driver.trace[|old(driver.trace)|..]);
  }

  /** The loop of exec_op. */
  method Interpret(driver: D.Driver, commands: array<Instr>, ninstrs: nat, buffer: array<Byte>) returns (ret: int)
    requires driver.Valid() && driver.Separate(buffer) && ninstrs <= commands.Length
    requires AllInBuffer(commands[..ninstrs], buffer.Length)
    modifies driver.Repr(), buffer
    ensures driver.Valid() && ret in {0, -1}
    ensures Result(driver.World(buffer), ret == 0)
         == Run(driver.step, old(driver.World(buffer)), Flatten(old(commands[..ninstrs])))
  {
    ghost var step := driver.step;
    ghost var p := commands[..ninstrs];
    ghost var all := Run(step, driver.World(buffer), Flatten(p));
    var i := 0;
    while i < ninstrs
      invariant driver.Valid() && i <= ninstrs
      invariant commands[..ninstrs] == p
      invariant all == Run(step, driver.World(buffer), Flatten(p[i..]))
    {
      assert commands[i] == p[i] && p[i..][1..] == p[i + 1..];
      RunAppend(step, driver.World(buffer), Effects(p[i]), Flatten(p[i + 1..]));
      ret := ExecInstr(driver, commands[i], buffer);
      if ret != 0 {
        return -1;
      }
      i := i + 1;
    }
    ret := 0;
  }

  // The interpreter's law.

  lemma {:induction false} OtherActionsSucceed(device: Device, w: World, s: seq<Action>)
    requires OnlyWaitsFail(device)
    requires forall i :: 0 <= i < |s| ==> !s[i].Wait? && !s[i].Unknown?
    ensures Run(device, w, s).ok
    decreases |s|
  {
    if s != [] {
      OtherActionsSucceed(device, device(w, s[0]).world, s[1..]);
    }
  }

  lemma {:induction false} SendsAreSends(start: nat, len: nat)
    ensures forall i :: 0 <= i < len ==> Sends(start, len)[i].Send?
    decreases len
  {
    if len > 0 {
      SendsAreSends(start + 1, len - 1);
    }
  }

  lemma {:induction false} RecvsAreRecvs(start: nat, len: nat)
    ensures forall i :: 0 <= i < len ==> Recvs(start, len)[i].Recv?
    decreases len
  {
    if len > 0 {
      RecvsAreRecvs(start + 1, len - 1);
    }
  }

  lemma {:induction false} AddressesAreSets(addrs: seq<Byte>)
    ensures forall i :: 0 <= i < |AddressActions(addrs)| ==> AddressActions(addrs)[i].Set?
  {
    if addrs != [] {
      AddressesAreSets(addrs[1..]);
    }
  }

  lemma InstrSucceeds(device: Device, w: World, i: Instr)
    requires OnlyWaitsFail(device)
    ensures Run(device, w, Effects(i)).ok || i.WaitRdy? || i.Other?
  {
    match i
    case Addr(addrs) =>
      AddressesAreSets(addrs);
      OtherActionsSucceed(device, w, AddressActions(addrs));
    case DataIn(start, len) =>
      SendsAreSends(start, len);
      OtherActionsSucceed(device, w, Sends(start, len));
    case DataOut(start, len) =>
      RecvsAreRecvs(start, len);
      OtherActionsSucceed(device, w, Recvs(start, len));
    case Cmd(opcode) =>
      OneStep(device, w, Command(opcode));
    case _ =>
  }

  lemma {:induction false} FlattenAppend(p: seq<Instr>, q: seq<Instr>)
    ensures Flatten(p + q) == Flatten(p) + Flatten(q)
  {
    if p == [] {
      assert p + q == q;
    } else {
      assert (p + q)[1..] == p[1..] + q;
      FlattenAppend(p[1..], q);
    }
  }

  /** Whatever the instructions and whatever the outcomes of the waits, what takes effect is a
      prefix of the operation.  It is the whole operation, all of it known, if the interpreter
      returns 0; else it ends with the first wait that times out or the first unknown
      instruction, which itself does nothing. */
  lemma {:induction false} PrefixLaw(device: Device, w: World, p: seq<Instr>) returns (k: nat)
    requires OnlyWaitsFail(device)
    ensures StopsAt(p, k, Performed(device, w, Flatten(p))) && (Run(device, w, Flatten(p)).ok <==> k == |p|)
    ensures Run(device, w, Flatten(p[..k])).ok
    ensures k < |p| ==>
              Run(device, w, Flatten(p)) == device(Run(device, w, Flatten(p[..k])).world, Effects(p[k])[0])
  {
    k := 0;
    assert p[..0] == [];
    while k < |p|
      invariant k <= |p| && Run(device, w, Flatten(p[..k])).ok
      invariant forall j :: 0 <= j < k ==> !p[j].Other?
    {
      Proceeds(device, w, p, k);
      if !Run(device, w, Flatten(p[..k + 1])).ok {
        StopsHere(device, w, p, k);
        return;
      }
      k := k + 1;
    }
    assert p[..k] == p;
    WholeIsPerformed(device, w, Flatten(p));
  }

  lemma Proceeds(device: Device, w: World, p: seq<Instr>, k: nat)
    requires OnlyWaitsFail(device) && k < |p| && Run(device, w, Flatten(p[..k])).ok
    ensures Run(device, w, Flatten(p[..k + 1])).ok ==> !p[k].Other?
    ensures !Run(device, w, Flatten(p[..k + 1])).ok ==> p[k].WaitRdy? || p[k].Other?
  {
    var done := Run(device, w, Flatten(p[..k])).world;
    OneMore(device, w, p, k);
    InstrSucceeds(device, done, p[k]);
    OneStep(device, done, Unknown);
  }

  lemma WholeIsPerformed(device: Device, w: World, s: seq<Action>)
    requires OnlyWaitsFail(device) && Run(device, w, s).ok
    ensures Performed(device, w, s) == s
  {
    var k := PerformedIsPrefix(device, w, s);
  }

  lemma FlattenSnoc(p: seq<Instr>, i: Instr)
    ensures Flatten(p + [i]) == Flatten(p) + Effects(i)
  {
    FlattenAppend(p, [i]);
    assert Flatten([i]) == Effects(i) + Flatten([]);
  }

  lemma FlattenUpTo(p: seq<Instr>, k: nat)
    requires k < |p|
    ensures Flatten(p[..k + 1]) == Flatten(p[..k]) + Effects(p[k])
  {
    assert p[..k + 1] == p[..k] + [p[k]];
    FlattenSnoc(p[..k], p[k]);
  }

  lemma FlattenAround(p: seq<Instr>, k: nat)
    requires k < |p|
    ensures Flatten(p) == Flatten(p[..k]) + (Effects(p[k]) + Flatten(p[k + 1..]))
  {
    var q := p[k..];
    assert p == p[..k] + q && q[0] == p[k] && q[1..] == p[k + 1..];
    FlattenAppend(p[..k], q);
    assert Flatten(q) == Effects(q[0]) + Flatten(q[1..]);
  }

  lemma OneMore(device: Device, w: World, p: seq<Instr>, k: nat)
    requires k < |p| && Run(device, w, Flatten(p[..k])).ok
    ensures Run(device, w, Flatten(p[..k + 1])) == Run(device, Run(device, w, Flatten(p[..k])).world, Effects(p[k]))
  {
    FlattenUpTo(p, k);
    RunAppend(device, w, Flatten(p[..k]), Effects(p[k]));
  }

  /** If action a makes the driver give up, the rest is ignored. */
  lemma GivesUp(device: Device, w: World, before: seq<Action>, a: Action, rest: seq<Action>)
    requires OnlyWaitsFail(device) && Run(device, w, before).ok
    requires !device(Run(device, w, before).world, a).ok
    ensures Run(device, w, before + ([a] + rest)) == device(Run(device, w, before).world, a)
    ensures Performed(device, w, before + ([a] + rest)) == before + Recorded(a)
  {
    var done := Run(device, w, before).world;
    RunAppend(device, w, before, [a] + rest);
    RunStep(device, done, a, rest);
    PerformedAppend(device, w, before, [a] + rest);
    WholeIsPerformed(device, w, before);
    assert Performed(device, done, [a] + rest) == Recorded(a);
  }

  lemma StopsHere(device: Device, w: World, p: seq<Instr>, k: nat)
    requires OnlyWaitsFail(device) && k < |p| && (p[k].WaitRdy? || p[k].Other?)
    requires Run(device, w, Flatten(p[..k])).ok && !Run(device, w, Flatten(p[..k + 1])).ok
    ensures Run(device, w, Flatten(p)) == device(Run(device, w, Flatten(p[..k])).world, Effects(p[k])[0])
    ensures Performed(device, w, Flatten(p)) == Flatten(if p[k].WaitRdy? then p[..k + 1] else p[..k])
    ensures !Run(device, w, Flatten(p)).ok
  {
    var a := Effects(p[k])[0];
    OneMore(device, w, p, k);
    OneStep(device, Run(device, w, Flatten(p[..k])).world, a);
    FlattenUpTo(p, k);
    FlattenAround(p, k);
    GivesUp(device, w, Flatten(p[..k]), a, Flatten(p[k + 1..]));
  }
}
