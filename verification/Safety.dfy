/** What entering MS_BUG says about a run: nothing leads out of it, and every access that
    reaches a busy device leads into it. */
module Safety {
  import opened Clock
  import opened ParserSpec
  import opened Bus

  /** Every action that touches the IO word finds the device ready. */
  ghost predicate OnTime(device: Device, tick: Schedule, w: World, actions: seq<Action>)
    decreases |actions|
  {
    actions == []
    || (&& (actions[0].Set? || actions[0].Send? || actions[0].Recv? ==> !Busy(tick, w))
        && var r := device(w, actions[0]);
           (r.ok ==> OnTime(device, tick, r.world, actions[1..])))
  }

  /** In other words: whichever action is due next, if it touches the IO word it finds the device
      ready. */
  lemma {:induction false} OnTimeMeaning(device: Device, tick: Schedule, w: World, actions: seq<Action>)
    ensures OnTime(device, tick, w, actions)
       <==> forall i :: 0 <= i < |actions| && Run(device, w, actions[..i]).ok
                        && (actions[i].Set? || actions[i].Send? || actions[i].Recv?) ==>
              !Busy(tick, Run(device, w, actions[..i]).world)
    decreases |actions|
  {
    if actions != [] {
      var r := device(w, actions[0]);
      assert actions[..0] == [];
      if r.ok {
        OnTimeMeaning(device, tick, r.world, actions[1..]);
      }
      forall i | 0 < i < |actions|
        ensures Run(device, w, actions[..i])
             == if r.ok then Run(device, r.world, actions[1..][..i - 1]) else r
      {
        assert actions[..i] == [actions[0]] + actions[1..][..i - 1];
        RunStep(device, w, actions[0], actions[1..][..i - 1]);
      }
      forall i | 0 <= i < |actions| - 1 ensures actions[1..][i] == actions[i + 1] {
      }
    }
  }

  /** Before its first command the device is never busy. */
  ghost predicate Calm(w: World) {
    w.m.state == Initial ==> w.m.deadline == 0
  }

  lemma CalmStep(device: Device, tick: Schedule, w: World, a: Action)
    requires Emulates(device, tick) && Calm(w)
    ensures Calm(device(w, a).world)
    ensures w.m.state == Bug ==> device(w, a).world.m.state == Bug
    ensures (a.Set? || a.Send? || a.Recv?) && Busy(tick, w) ==> device(w, a).world.m.state == Bug
  {
    var r := Perform(tick, w, a);
  }

  lemma {:induction false} BugIsForEver(device: Device, tick: Schedule, w: World, actions: seq<Action>)
    requires Emulates(device, tick) && w.m.state == Bug
    ensures Run(device, w, actions).world.m.state == Bug
    decreases |actions|
  {
    if actions != [] {
      CalmStep(device, tick, w, actions[0]);
      var r := device(w, actions[0]);
      if r.ok {
        BugIsForEver(device, tick, r.world, actions[1..]);
      }
    }
  }

  /** A run that does not end in MS_BUG has never touched a busy device. */
  lemma {:induction false} NoBugMeansOnTime(device: Device, tick: Schedule, w: World, actions: seq<Action>)
    requires Emulates(device, tick) && Calm(w)
    requires Run(device, w, actions).world.m.state != Bug
    ensures OnTime(device, tick, w, actions)
    decreases |actions|
  {
    if actions != [] {
      CalmStep(device, tick, w, actions[0]);
      var r := device(w, actions[0]);
      if r.ok {
        if r.world.m.state == Bug {
          BugIsForEver(device, tick, r.world, actions[1..]);
        }
        NoBugMeansOnTime(device, tick, r.world, actions[1..]);
      }
    }
  }
}
