/** The whole stack against the mirror, for every sequence of framework calls. */
module EndToEnd {
  import opened Geometry
  import opened Ring
  import opened StoreSpec
  import opened Clock
  import opened ParserSpec
  import opened Bus
  import opened Requests
  import opened MirrorSpec
  import opened Sessions
  import opened Safety
  import WriteRefinement
  import ReadRefinement
  import EraseRefinement

  /** A framework call.  The buffer of a Read is what the caller's buffer holds before. */
  datatype Request =
    | Write(bytes: seq<Byte>, offset: nat)
    | Read(buffer: seq<Byte>, offset: nat)
    | Erase(offset: nat, size: nat)
  {
    function Size(): nat {
      match this
      case Write(bytes, _) => |bytes|
      case Read(buffer, _) => |buffer|
      case Erase(_, size) => size
    }

    function Actions(): seq<Action> {
      match this
      case Write(bytes, _) => WriteActions(offset, |bytes|)
      case Read(buffer, _) => ReadActions(offset, |buffer|)
      case Erase(_, size) => EraseActions(offset, size)
    }

    function Buffer(): seq<Byte> {
      match this
      case Write(bytes, _) => bytes
      case Read(buffer, _) => buffer
      case Erase(_, _) => []
    }
  }

  /** parser_init: the device as it starts up. */
  const POWER_ON: Machine := Machine(Initial, Word(0, 0, 0), BLANK, 0)

  /** What a caller sees: whether every call returned 0, and the buffer after each call. */
  datatype Outcome = Outcome(world: World, ok: bool, buffers: seq<seq<Byte>>)

  ghost function Serve(device: Device, w: World, request: Request): Result {
    Run(device, w.(buf := request.Buffer()), request.Actions())
  }

  ghost function ServeAll(device: Device, w: World, requests: seq<Request>): Outcome {
    if requests == [] then Outcome(w, true, [])
    else
      var n := |requests| - 1;
      var before := ServeAll(device, w, requests[..n]);
      var r := Serve(device, before.world, requests[n]);
      Outcome(r.world, before.ok && r.ok, before.buffers + [r.world.buf])
  }

  /** What the answer key says. */
  datatype Key = Key(mirror: seq<Byte>, buffers: seq<seq<Byte>>)

  function Answer(mirror: seq<Byte>, request: Request): (r: seq<Byte>)
    requires |mirror| == STORE_SIZE
    ensures |r| == STORE_SIZE
  {
    match request
    case Write(bytes, offset) => WriteMirror(mirror, bytes, offset)
    case Read(_, _) => mirror
    case Erase(offset, size) => EraseMirror(mirror, offset, size)
  }

  function AnswerBuffer(mirror: seq<Byte>, request: Request): seq<Byte>
    requires |mirror| == STORE_SIZE
  {
    match request
    case Write(bytes, _) => bytes
    case Read(buffer, offset) => ReadMirror(mirror, offset, |buffer|)
    case Erase(_, _) => []
  }

  /** The answers to a sequence of requests, given what the mirror holds at first. */
  function AnswerAll(mirror: seq<Byte>, requests: seq<Request>): (r: Key)
    requires |mirror| == STORE_SIZE
    ensures |r.mirror| == STORE_SIZE
  {
    if requests == [] then Key(mirror, [])
    else
      var n := |requests| - 1;
      var before := AnswerAll(mirror, requests[..n]);
      Key(Answer(before.mirror, requests[n]), before.buffers + [AnswerBuffer(before.mirror, requests[n])])
  }

  /** One call from any idle device: it returns 0, never touches a busy device, and leaves
      store, buffer and device as the answer key says. */
  lemma ServeAgrees(device: Device, tick: Schedule, w: World, request: Request)
    requires Emulates(device, tick) && Idle(tick, w) && request.Size() > 0
    ensures var r := Serve(device, w, request);
            && r.ok && Idle(tick, r.world)
            && r.world.m.store.data == Answer(w.m.store.data, request)
            && r.world.buf == AnswerBuffer(w.m.store.data, request)
    ensures OnTime(device, tick, w.(buf := request.Buffer()), request.Actions())
  {
    var v := w.(buf := request.Buffer());
    match request {
      case Write(bytes, offset) =>
        WriteRefinement.WriteRefinesMirror(device, tick, v, offset, |bytes|);
        assert bytes[..|bytes|] == bytes;
      case Read(buffer, offset) =>
        ReadRefinement.ReadRefinesMirror(device, tick, v, offset, |buffer|);
        assert buffer[|buffer|..] == [];
      case Erase(offset, size) =>
        EraseRefinement.EraseRefinesMirror(device, tick, v, offset, size);
    }
    NoBugMeansOnTime(device, tick, v, request.Actions());
  }

  /** Call number i of a sequence finds the device ready at each of its accesses. */
  ghost predicate OnTimeAt(device: Device, tick: Schedule, w: World, requests: seq<Request>, i: nat)
    requires i < |requests|
  {
    var v := ServeAll(device, w, requests[..i]).world;
    OnTime(device, tick, v.(buf := requests[i].Buffer()), requests[i].Actions())
  }

  ghost predicate AllOnTime(device: Device, tick: Schedule, w: World, requests: seq<Request>) {
    forall i :: 0 <= i < |requests| ==> OnTimeAt(device, tick, w, requests, i)
  }

  lemma OneMoreOnTime(device: Device, tick: Schedule, w: World, requests: seq<Request>)
    requires requests != []
    requires AllOnTime(device, tick, w, requests[..|requests| - 1])
    requires OnTimeAt(device, tick, w, requests, |requests| - 1)
    ensures AllOnTime(device, tick, w, requests)
  {
    var before := requests[..|requests| - 1];
    forall i | 0 <= i < |requests| - 1 ensures OnTimeAt(device, tick, w, requests, i) {
      assert OnTimeAt(device, tick, w, before, i);
      assert before[..i] == requests[..i];
    }
  }

  ghost predicate NoneEmpty(requests: seq<Request>) {
    forall i :: 0 <= i < |requests| ==> requests[i].Size() > 0
  }

  /** From any idle device, whatever it holds. */
  lemma {:induction false} ServeAllAgrees(device: Device, tick: Schedule, start: World, requests: seq<Request>)
    requires Emulates(device, tick) && Idle(tick, start) && NoneEmpty(requests)
    ensures var r := ServeAll(device, start, requests);
            var key := AnswerAll(start.m.store.data, requests);
            && r.ok
            && Idle(tick, r.world)
            && r.world.m.store.data == key.mirror
            && r.buffers == key.buffers
            && AllOnTime(device, tick, start, requests)
  {
    if requests != [] {
      var n := |requests| - 1;
      ServeAllAgrees(device, tick, start, requests[..n]);
      ServeAgrees(device, tick, ServeAll(device, start, requests[..n]).world, requests[n]);
      OneMoreOnTime(device, tick, start, requests);
    }
  }

  /** For every clock and every sequence of non-empty reads, writes and erases, every call
      returns 0, the stack hands back what the mirror predicts and holds what the mirror
      holds, and no access ever reaches a busy device. */
  lemma StackAgreesWithMirror(device: Device, tick: Schedule, requests: seq<Request>)
    requires Emulates(device, tick) && NoneEmpty(requests)
    ensures var start := World(POWER_ON, 0, [], []);
            var r := ServeAll(device, start, requests);
            var key := AnswerAll(Zeros(STORE_SIZE), requests);
            && r.ok
            && r.world.m.state != Bug
            && r.world.m.store.data == key.mirror
            && r.buffers == key.buffers
            && AllOnTime(device, tick, start, requests)
  {
    ServeAllAgrees(device, tick, World(POWER_ON, 0, [], []), requests);
  }
}
