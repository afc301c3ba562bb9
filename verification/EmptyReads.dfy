/** What an empty request does.  A read of no bytes sends its preamble but never the execute
    command, which leaves the parser waiting for one; the next setup command is then a bug. */
module EmptyReads {
  import opened Geometry
  import opened Clock
  import opened ParserSpec
  import opened Bus
  import opened Requests
  import opened Sessions
  import opened Safety
  import opened EndToEnd
  import EraseRefinement

  ghost predicate EmptyRead(r: Request) {
    r.Read? && r.buffer == []
  }

  lemma FirstAction(r: Request)
    ensures var a := r.Actions();
            && |a| > 0
            && (a[0] == Command(C_READ_SETUP) || a[0] == Command(C_PROGRAM_SETUP) || a[0] == Command(C_ERASE_SETUP))
  {
  }

  lemma StrandedFails(device: Device, tick: Schedule, w: World, c: Byte)
    requires Emulates(device, tick) && w.m.state == ReadAwaitingExecute && IsSetup(c)
    ensures device(w, Command(c)).ok && device(w, Command(c)).world.m.state == Bug
  {
    var r := Perform(tick, w, Command(c));
  }

  lemma ServeStranded(device: Device, tick: Schedule, w: World, request: Request)
    requires Emulates(device, tick) && w.m.state in {ReadAwaitingExecute, Bug}
    ensures Serve(device, w, request).world.m.state == Bug
  {
    var v := w.(buf := request.Buffer());
    var actions := request.Actions();
    if w.m.state == Bug {
      BugIsForEver(device, tick, v, actions);
    } else {
      FirstAction(request);
      StrandedFails(device, tick, v, actions[0].value);
      BugIsForEver(device, tick, device(v, actions[0]).world, actions[1..]);
    }
  }

  lemma ServeAny(device: Device, tick: Schedule, w: World, request: Request)
    requires Emulates(device, tick) && Idle(tick, w)
    ensures var v := Serve(device, w, request).world;
            if EmptyRead(request) then v.m.state == ReadAwaitingExecute else Idle(tick, v)
  {
    var v := w.(buf := request.Buffer());
    if request.Size() > 0 {
      ServeAgrees(device, tick, w, request);
    } else {
      match request
      case Write(_, offset) =>
        Open(device, tick, v, C_PROGRAM_SETUP, offset);
        assert WriteActions(offset, 0) == Preamble(C_PROGRAM_SETUP, offset);
      case Read(_, offset) =>
        Open(device, tick, v, C_READ_SETUP, offset);
        assert ReadActions(offset, 0) == Preamble(C_READ_SETUP, offset);
      case Erase(offset, _) =>
        EraseRefinement.EraseRefinesMirror(device, tick, v, offset, 0);
    }
  }

  /** Some empty read is followed by a further request. */
  ghost predicate EmptyReadBeforeLast(requests: seq<Request>) {
    exists i :: 0 <= i < |requests| - 1 && EmptyRead(requests[i])
  }

  lemma EmptyReadsOfPrefix(requests: seq<Request>)
    requires requests != []
    ensures var before := requests[..|requests| - 1];
            EmptyReadBeforeLast(requests)
            <==> EmptyReadBeforeLast(before) || (before != [] && EmptyRead(before[|before| - 1]))
  {
    var before := requests[..|requests| - 1];
    forall i | 0 <= i < |requests| - 1 ensures before[i] == requests[i] {
    }
    if i :| 0 <= i < |before| - 1 && EmptyRead(before[i]) {
      assert EmptyRead(requests[i]);
    }
    if before != [] {
      assert before[|before| - 1] == requests[|before| - 1];
    }
  }

  lemma {:induction false} StateAfter(device: Device, tick: Schedule, start: World, requests: seq<Request>)
    requires Emulates(device, tick) && Idle(tick, start)
    ensures var w := ServeAll(device, start, requests).world;
            if EmptyReadBeforeLast(requests) then w.m.state == Bug
            else if requests != [] && EmptyRead(requests[|requests| - 1]) then w.m.state == ReadAwaitingExecute
            else Idle(tick, w)
  {
    if requests != [] {
      var n := |requests| - 1;
      StateAfter(device, tick, start, requests[..n]);
      EmptyReadsOfPrefix(requests);
      var w := ServeAll(device, start, requests[..n]).world;
      if EmptyReadBeforeLast(requests) {
        ServeStranded(device, tick, w, requests[n]);
      } else {
        ServeAny(device, tick, w, requests[n]);
      }
    }
  }

  /** Requests of any size: the device ends in MS_BUG if and only if an empty read is
      followed by another request. */
  lemma BugExactlyAfterEmptyRead(device: Device, tick: Schedule, requests: seq<Request>)
    requires Emulates(device, tick)
    ensures ServeAll(device, World(POWER_ON, 0, [], []), requests).world.m.state == Bug
        <==> EmptyReadBeforeLast(requests)
  {
    StateAfter(device, tick, World(POWER_ON, 0, [], []), requests);
  }
}
