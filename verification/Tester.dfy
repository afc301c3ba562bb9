/** The stochastic system test, tester/st_stochastic.c, with the random choices replaced by an
    arbitrary list of operations, and the dispatch of framework/framework.c. */
module Tester {
  import opened Geometry
  import opened Clock
  import opened Bus
  import opened Sessions
  import opened Requests
  import opened BlockRange
  import opened MirrorSpec
  import opened Ring
  import E = EndToEnd
  import D = Driver
  import M = Mirror
  import JumpTable
  import Compiler
  import WriteRefinement
  import ReadRefinement
  import EraseRefinement

  datatype Operation =
    | DoRead(start: nat, size: nat)
    | DoWrite(bytes: seq<Byte>, start: nat)
    | DoErase(start: nat, size: nat)
  {
    predicate Proper() {
      match this
      case DoRead(start, size) => Transferable(start, size)
      case DoWrite(bytes, start) => Transferable(start, |bytes|) && M.Unsigned(start + |bytes| - 1) < LAST_PAGE
      case DoErase(start, size) => Erasable(start, size)
    }

    /** The request that the operation puts to both systems. */
    function Request(): E.Request {
      match this
      case DoRead(start, size) => E.Read(Zeros(size), start)
      case DoWrite(bytes, start) => E.Write(bytes, start)
      case DoErase(start, size) => E.Erase(start, size)
    }
  }

  /** Not empty, and what the framework adds up does not overflow. */
  predicate Transferable(start: nat, size: nat) {
    0 < size && start % PAGE_SIZE + size < UINT_LIMIT
  }

  /** Not empty, and the mirror comes to an end before the last block of the address space. */
  predicate Erasable(start: nat, size: nat) {
    0 < size && start + size <= LAST_BLOCK
  }

  /** What the mirror holds, and what the driver has done to the device. */
  datatype Progress = Progress(mirror: seq<Byte>, trace: seq<Action>)

  function Step(p: Progress, operation: Operation): (r: Progress)
    requires |p.mirror| == STORE_SIZE
    ensures |r.mirror| == STORE_SIZE
  {
    Progress(E.Answer(p.mirror, operation.Request()), p.trace + operation.Request().Actions())
  }

  function Steps(p: Progress, operations: seq<Operation>): (r: Progress)
    requires |p.mirror| == STORE_SIZE
    ensures |r.mirror| == STORE_SIZE
  {
    if operations == [] then p
    else
      var n := |operations| - 1;
      Step(Steps(p, operations[..n]), operations[n])
  }

  lemma StepsSnoc(p: Progress, operations: seq<Operation>, operation: Operation)
    requires |p.mirror| == STORE_SIZE
    ensures Steps(p, operations + [operation]) == Step(Steps(p, operations), operation)
  {
    assert (operations + [operation])[..|operations|] == operations;
  }

  lemma NextStep(p: Progress, operations: seq<Operation>, o: nat)
    requires |p.mirror| == STORE_SIZE && o < |operations|
    ensures Steps(p, operations[..o + 1]) == Step(Steps(p, operations[..o]), operations[o])
  {
    assert operations[..o + 1] == operations[..o] + [operations[o]];
    StepsSnoc(p, operations[..o], operations[o]);
  }

  lemma {:induction false} StepsAppend(p: Progress, a: seq<Operation>, b: seq<Operation>)
    requires |p.mirror| == STORE_SIZE
    ensures Steps(p, a + b) == Steps(Steps(p, a), b)
  {
    if b == [] {
      assert a + b == a;
    } else {
      var n := |b| - 1;
      assert a + b == a + b[..n] + [b[n]];
      StepsSnoc(p, a + b[..n], b[n]);
      StepsAppend(p, a, b[..n]);
    }
  }

  lemma WholeTest(p: Progress, arenaStart: nat, arenaSize: nat, operations: seq<Operation>)
    requires |p.mirror| == STORE_SIZE
    ensures Steps(p, [DoErase(arenaStart, arenaSize)] + operations + [DoRead(arenaStart, arenaSize)])
         == Step(Steps(Step(p, DoErase(arenaStart, arenaSize)), operations), DoRead(arenaStart, arenaSize))
  {
    var erase, read := DoErase(arenaStart, arenaSize), DoRead(arenaStart, arenaSize);
    StepsSnoc(p, [erase] + operations, read);
    StepsAppend(p, [erase], operations);
    assert [] + [erase] == [erase];
    StepsSnoc(p, [], erase);
  }

  function ToRequests(operations: seq<Operation>): seq<E.Request> {
    if operations == [] then []
    else
      var n := |operations| - 1;
      ToRequests(operations[..n]) + [operations[n].Request()]
  }

  function AllActions(requests: seq<E.Request>): seq<Action> {
    if requests == [] then []
    else
      var n := |requests| - 1;
      AllActions(requests[..n]) + requests[n].Actions()
  }

  /** The requests lead from p to q: to the mirror of the answer key, by all their actions, in
      order. */
  predicate Leads(p: Progress, requests: seq<E.Request>, q: Progress)
    requires |p.mirror| == STORE_SIZE
  {
    q.mirror == E.AnswerAll(p.mirror, requests).mirror && q.trace == p.trace + AllActions(requests)
  }

  lemma OneMoreAnswer(mirror: seq<Byte>, requests: seq<E.Request>, request: E.Request)
    requires |mirror| == STORE_SIZE
    ensures E.AnswerAll(mirror, requests + [request]).mirror
         == E.Answer(E.AnswerAll(mirror, requests).mirror, request)
  {
    var all := requests + [request];
    assert all[..|all| - 1] == requests;
  }

  lemma OneMoreActions(done: seq<Action>, requests: seq<E.Request>, request: E.Request)
    ensures done + AllActions(requests + [request]) == done + AllActions(requests) + request.Actions()
  {
    var all := requests + [request];
    assert all[..|all| - 1] == requests;
  }

  lemma {:induction false} StepsAreAnswers(p: Progress, operations: seq<Operation>)
    requires |p.mirror| == STORE_SIZE
    ensures Leads(p, ToRequests(operations), Steps(p, operations))
  {
    if operations != [] {
      var n := |operations| - 1;
      StepsAreAnswers(p, operations[..n]);
      OneMoreAnswer(p.mirror, ToRequests(operations[..n]), operations[n].Request());
      OneMoreActions(p.trace, ToRequests(operations[..n]), operations[n].Request());
    }
  }

  datatype DriverType = NandJumpTable | NandExecOp

  class Rig {
    const driver: D.Driver
    const mirror: M.Mirror
    const kind: DriverType

    ghost function Footprint(): set<object> {
      driver.Repr() + {mirror.mirror}
    }

    ghost predicate Valid()
      reads this, driver, driver.device, Footprint()
    {
      && driver.Valid() && mirror.Valid()
      && mirror.mirror != driver.device.store.cache && mirror.mirror != driver.device.store.data
    }

    /** The driver's world with the given contents of the caller's buffer. */
    ghost function WorldWith(buf: seq<Byte>): World
      requires Valid()
      reads this, driver, driver.device, Footprint()
    {
      World(driver.device.Machine(), driver.device.clock.readings, buf, driver.trace)
    }

    ghost function Here(): Progress
      reads driver, mirror.mirror
    {
      Progress(mirror.mirror[..], driver.trace)
    }

    /** The device is between requests and holds what the mirror holds. */
    ghost predicate Agreement()
      reads this, driver, driver.device, Footprint()
    {
      && Valid()
      && Idle(driver.device.clock.tick, WorldWith([]))
      && driver.device.Machine().store.data == mirror.mirror[..]
    }

    constructor (tick: Schedule, kind: DriverType)
      ensures Agreement() && fresh(Footprint())
      ensures Here() == Progress(Zeros(STORE_SIZE), [])
      ensures this.kind == kind && driver.device.clock.tick == tick
    {
      driver := new D.Driver(tick);
      mirror := new M.Mirror();
      this.kind := kind;
    }

    /** erase_nand */
    method EraseNand(start: nat, size: nat, buffer: array<Byte>) returns (ret: int)
      requires driver.Valid() && driver.Separate(buffer)
      requires start < UINT_LIMIT && size < UINT_LIMIT
      modifies driver.Repr(), buffer
      ensures driver.Valid()
      ensures Result(driver.World(buffer), ret == 0)
           == Run(driver.step, old(driver.World(buffer)), EraseSession(start, UnsignedBlockCount(start, size)))
      ensures driver.trace
           == old(driver.trace)
            + Performed(driver.step, old(driver.World(buffer)), EraseSession(start, UnsignedBlockCount(start, size)))
      ensures ret == 0 ==>
                driver.trace == old(driver.trace) + EraseSession(start, UnsignedBlockCount(start, size))
    {
      if kind == NandJumpTable {
        ret := JumpTable.JtErase(driver, start, size, buffer);
      } else {
        ret := Compiler.ExecErase(driver, start, size, buffer);
      }
    }

    /** write_nand */
    method WriteNand(buffer: array<Byte>, start: nat, size: nat) returns (ret: int)
      requires driver.Valid() && driver.Separate(buffer) && size <= buffer.Length
      requires Transferable(start, size)
      modifies driver.Repr(), buffer
      ensures driver.Valid()
      ensures Result(driver.World(buffer), ret == 0)
           == Run(driver.step, old(driver.World(buffer)), WriteActions(start, size))
      ensures driver.trace
           == old(driver.trace) + Performed(driver.step, old(driver.World(buffer)), WriteActions(start, size))
      ensures ret == 0 ==> driver.trace == old(driver.trace) + WriteActions(start, size)
    {
      if kind == NandJumpTable {
        ret := JumpTable.JtWrite(driver, buffer, start, size);
      } else {
        ret := Compiler.ExecWrite(driver, buffer, start, size);
      }
    }

    /** read_nand */
    method ReadNand(buffer: array<Byte>, start: nat, size: nat) returns (ret: int)
      requires driver.Valid() && driver.Separate(buffer) && size <= buffer.Length
      requires Transferable(start, size)
      modifies driver.Repr(), buffer
      ensures driver.Valid()
      ensures Result(driver.World(buffer), ret == 0)
           == Run(driver.step, old(driver.World(buffer)), ReadActions(start, size))
      ensures driver.trace
           == old(driver.trace) + Performed(driver.step, old(driver.World(buffer)), ReadActions(start, size))
      ensures ret == 0 ==> driver.trace == old(driver.trace) + ReadActions(start, size)
    {
      if kind == NandJumpTable {
        ret := JumpTable.JtRead(driver, buffer, start, size);
      } else {
        ret := Compiler.ExecRead(driver, buffer, start, size);
      }
    }

    /** do_erase: both systems erase, whatever state the device is in. */
    method Erase(start: nat, size: nat) returns (ret: int)
      requires Valid() && Erasable(start, size)
      modifies Footprint()
      ensures Valid() && ret in {0, -1}
      ensures mirror.mirror[..] == EraseMirror(old(mirror.mirror[..]), start, size)
      ensures Result(WorldWith([]), ret == 0) == Run(driver.step, old(WorldWith([])), EraseActions(start, size))
      ensures ret == 0 ==> driver.trace == old(driver.trace) + EraseActions(start, size)
      ensures old(Agreement()) ==> Agreement() && ret == 0
    {
      EraseCountExactly(start, size);
      var buffer := new Byte[0];
      assert buffer[..] == [];
      if Agreement() {
        EraseRefinement.EraseRefinesMirror(driver.step, driver.device.clock.tick, WorldWith([]), start, size);
      }
      mirror.EraseMirror(start, size);
      ret := EraseNand(start, size, buffer);
      if ret != 0 {
        return -1;
      }
    }

    /** The same write to both systems. */
    method WriteBoth(buffer: array<Byte>, start: nat, size: nat) returns (ret: int)
      requires Valid() && Transferable(start, size) && M.Unsigned(start + size - 1) < LAST_PAGE
      requires buffer.Length == size && driver.Separate(buffer) && mirror.mirror != buffer
      modifies Footprint(), buffer
      ensures Valid()
      ensures mirror.mirror[..] == WriteMirror(old(mirror.mirror[..]), old(buffer[..]), start)
      ensures Result(WorldWith(buffer[..]), ret == 0)
           == Run(driver.step, old(WorldWith(buffer[..])), WriteActions(start, size))
      ensures ret == 0 ==> driver.trace == old(driver.trace) + WriteActions(start, size)
      ensures old(Agreement()) ==> Agreement() && ret == 0
    {
      assert buffer[..] == buffer[..size];
      if Agreement() {
        WriteRefinement.WriteRefinesMirror(driver.step, driver.device.clock.tick, WorldWith(buffer[..]), start, size);
      }
      mirror.WriteMirror(buffer, start, size);
      ret := WriteNand(buffer, start, size);
    }

    /** do_write: both systems write, whatever state the device is in. */
    method Write(bytes: seq<Byte>, start: nat) returns (ret: int)
      requires Valid() && Transferable(start, |bytes|) && M.Unsigned(start + |bytes| - 1) < LAST_PAGE
      modifies Footprint()
      ensures Valid() && ret in {0, -1}
      ensures mirror.mirror[..] == WriteMirror(old(mirror.mirror[..]), bytes, start)
      ensures var r := Run(driver.step, old(WorldWith(bytes)), WriteActions(start, |bytes|));
              WorldWith(r.world.buf) == r.world && (ret == 0 <==> r.ok)
      ensures ret == 0 ==> driver.trace == old(driver.trace) + WriteActions(start, |bytes|)
      ensures old(Agreement()) ==> Agreement() && ret == 0
    {
      var buffer := new Byte[|bytes|](i requires 0 <= i < |bytes| => bytes[i]);
      assert buffer[..] == bytes;
      ret := WriteBoth(buffer, start, |bytes|);
      if ret != 0 {
        ret := -1;
      }
    }

    /** The same read from both systems. */
    method ReadBoth(fromMirror: array<Byte>, fromDevice: array<Byte>, start: nat, size: nat) returns (ret: int)
      requires Valid() && Transferable(start, size)
      requires fromMirror.Length == fromDevice.Length == size && fromMirror != fromDevice
      requires driver.Separate(fromMirror) && driver.Separate(fromDevice)
      requires mirror.mirror != fromMirror && mirror.mirror != fromDevice
      modifies driver.Repr(), fromMirror, fromDevice
      ensures Valid()
      ensures fromMirror[..] == ReadMirror(mirror.mirror[..], start, size)
      ensures Result(WorldWith(fromDevice[..]), ret == 0)
           == Run(driver.step, old(WorldWith(fromDevice[..])), ReadActions(start, size))
      ensures ret == 0 ==> driver.trace == old(driver.trace) + ReadActions(start, size)
      ensures old(Agreement()) ==> Agreement() && ret == 0 && fromDevice[..] == fromMirror[..]
    {
      if Agreement() {
        ReadRefinement.ReadRefinesMirror(driver.step, driver.device.clock.tick, WorldWith(fromDevice[..]), start, size);
      }
      mirror.ReadMirror(fromMirror, start, size);
      assert fromMirror[..] == fromMirror[..size];
      ret := ReadNand(fromDevice, start, size);
    }

    /** do_read_and_comparison: whatever state the device is in, 0 if and only if the device serves
        the read in time and with the bytes that the mirror has. */
    method ReadAndCompare(start: nat, size: nat) returns (ret: int)
      requires Valid() && Transferable(start, size)
      modifies Footprint()
      ensures Valid() && mirror.mirror[..] == old(mirror.mirror[..]) && ret in {0, -1}
      ensures var r := Run(driver.step, old(WorldWith(Zeros(size))), ReadActions(start, size));
              && WorldWith(r.world.buf) == r.world
              && (ret == 0 <==> r.ok && r.world.buf == ReadMirror(mirror.mirror[..], start, size))
      ensures ret == 0 ==> driver.trace == old(driver.trace) + ReadActions(start, size)
      ensures old(Agreement()) ==> Agreement() && ret == 0
    {
      var fromMirror := new Byte[size](_ => 0);
      var fromDevice := new Byte[size](_ => 0);
      assert fromDevice[..] == Zeros(size);
      ret := ReadBoth(fromMirror, fromDevice, start, size);
      if ret != 0 {
        return -1;
      }
      ret := Compare(fromDevice, fromMirror);
    }

    /** One turn of the loop of do_test. */
    method Operate(operation: Operation) returns (ret: int)
      requires Agreement() && operation.Proper()
      modifies Footprint()
      ensures Agreement() && ret == 0 && Here() == Step(old(Here()), operation)
    {
      match operation {
        case DoErase(start, size) => ret := Erase(start, size);
        case DoWrite(bytes, start) => ret := Write(bytes, start);
        case DoRead(start, size) => ret := ReadAndCompare(start, size);
      }
    }

    /** The loop of do_test. */
    method OperateAll(operations: seq<Operation>) returns (ret: int)
      requires Agreement() && forall i :: 0 <= i < |operations| ==> operations[i].Proper()
      modifies Footprint()
      ensures Agreement() && ret == 0 && Here() == Steps(old(Here()), operations)
    {
      ghost var p := Here();
      for o := 0 to |operations|
        invariant Agreement() && Here() == Steps(p, operations[..o])
      {
        NextStep(p, operations, o);
        ret := Operate(operations[o]);
        if ret != 0 {
          return -1;
        }
      }
      assert operations[..|operations|] == operations;
      ret := 0;
    }

    /** do_test: whatever the operations, whatever the clock and whichever the kind of driver,
        the test passes.  It has put the erase of the arena, all operations and the read of the
        arena to both systems, in order. */
    method DoTest(arenaStart: nat, arenaSize: nat, operations: seq<Operation>) returns (ret: int)
      requires Agreement() && Erasable(arenaStart, arenaSize)
      requires forall i :: 0 <= i < |operations| ==> operations[i].Proper()
      modifies Footprint()
      ensures Agreement() && ret == 0
      ensures Here()
           == Steps(old(Here()), [DoErase(arenaStart, arenaSize)] + operations + [DoRead(arenaStart, arenaSize)])
    {
      WholeTest(Here(), arenaStart, arenaSize, operations);
      ret := Erase(arenaStart, arenaSize);
      if ret != 0 {
        return -1;
      }
      ret := OperateAll(operations);
      if ret != 0 {
        return -1;
      }
      ret := ReadAndCompare(arenaStart, arenaSize);
    }
  }

  /** The comparison loop of do_read_and_comparison. */
  method Compare(a: array<Byte>, b: array<Byte>) returns (ret: int)
    requires a.Length == b.Length
    ensures ret in {0, -1} && (ret == 0 <==> a[..] == b[..])
  {
    var i := 0;
    while i < a.Length
      invariant i <= a.Length && a[..i] == b[..i]
    {
      if a[i] != b[i] {
        return -1;
      }
      i := i + 1;
    }
    ret := 0;
  }
}
