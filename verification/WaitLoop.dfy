/** The polling loop of nand_wait against a clock that never runs backwards. */
module WaitLoop {
  import opened Geometry
  import opened Clock
  import opened Bus

  /** If the device is due to be ready by the driver's timeout, the loop sees it ready, and
      the device is still ready whenever the clock is read next. */
  lemma {:induction false} PollSucceeds(tick: Schedule, deadline: nat, timeout: nat, clk: nat)
    requires deadline <= timeout
    ensures var p := PollFrom(tick, deadline, timeout, clk); p.ready && tick(p.clk) >= deadline
    decreases if clk <= Horizon(tick, timeout) then Horizon(tick, timeout) - clk + 1 else 0
  {
    if tick(clk) < deadline && tick(clk + 1) < timeout {
      PollSucceeds(tick, deadline, timeout, clk + 2);
    }
  }

  lemma WaitSucceeds(device: Device, tick: Schedule, w: World, interval: nat)
    requires Emulates(device, tick)
    requires w.m.deadline <= tick(w.clk) + interval
    ensures var r := device(w, Wait(interval));
            r.ok && !Busy(tick, r.world) && r.world.m == w.m && r.world.buf == w.buf
  {
    PollSucceeds(tick, w.m.deadline, tick(w.clk) + interval, w.clk + 1);
    var r := Perform(tick, w, Wait(interval));
  }

  /** How often the loop has polled the status pin: at the first reading and at every other
      reading after it. */
  function Polls(clk: nat, p: Poll): nat
    requires clk < p.clk
  {
    (p.clk - clk + 1) / 2
  }

  lemma {:induction false} LastPoll(tick: Schedule, deadline: nat, timeout: nat, clk: nat)
    ensures var p := PollFrom(tick, deadline, timeout, clk);
            (p.clk - clk) % 2 == 1 && (p.ready <==> tick(p.clk - 1) >= deadline)
    decreases if clk <= Horizon(tick, timeout) then Horizon(tick, timeout) - clk + 1 else 0
  {
    if tick(clk) < deadline && tick(clk + 1) < timeout {
      LastPoll(tick, deadline, timeout, clk + 2);
    }
  }

  lemma {:induction false} EarlierPolls(tick: Schedule, deadline: nat, timeout: nat, clk: nat)
    ensures var p := PollFrom(tick, deadline, timeout, clk);
            forall k {:trigger tick(k)} :: clk <= k < p.clk - 1 && (k - clk) % 2 == 0 ==> tick(k) < deadline
    decreases if clk <= Horizon(tick, timeout) then Horizon(tick, timeout) - clk + 1 else 0
  {
    if tick(clk) < deadline && tick(clk + 1) < timeout {
      EarlierPolls(tick, deadline, timeout, clk + 2);
    }
  }

  /** What the loop condition sees: every reading before its last one is before the timeout.  So
      the loop does not go on once the clock has shown the timeout, and if it gives up its last
      reading has. */
  lemma {:induction false} LoopCondition(tick: Schedule, deadline: nat, timeout: nat, clk: nat)
    ensures var p := PollFrom(tick, deadline, timeout, clk);
            && (forall k {:trigger tick(k)} :: clk < k < p.clk - 2 && (k - clk) % 2 == 1 ==> tick(k) < timeout)
            && (!p.ready ==> clk + 2 < p.clk && tick(p.clk - 2) >= timeout)
    decreases if clk <= Horizon(tick, timeout) then Horizon(tick, timeout) - clk + 1 else 0
  {
    if tick(clk) < deadline && tick(clk + 1) < timeout {
      LoopCondition(tick, deadline, timeout, clk + 2);
    }
  }

  /** What the result of the loop says: ready if and only if its last poll saw a ready device;
      every poll before the last saw a busy one; and it gives up only after the timeout. */
  lemma PollMeaning(tick: Schedule, deadline: nat, timeout: nat, clk: nat)
    ensures var p := PollFrom(tick, deadline, timeout, clk);
            && (p.clk - clk) % 2 == 1
            && (p.ready <==> tick(p.clk - 1) >= deadline)
            && (forall k {:trigger tick(k)} :: clk <= k < p.clk - 1 && (k - clk) % 2 == 0 ==> tick(k) < deadline)
            && (!p.ready ==> tick(p.clk - 1) >= timeout)
  {
    LastPoll(tick, deadline, timeout, clk);
    EarlierPolls(tick, deadline, timeout, clk);
    LoopCondition(tick, deadline, timeout, clk);
  }

  /** A nand_wait that begins at reading number w.clk and ends before reading number r.clk polls
      the device at every other reading from the second on.  It returns 0 if and only if its last
      poll saw a ready device, which no poll before had seen. */
  lemma WaitMeaning(device: Device, tick: Schedule, w: World, interval: nat)
    requires Emulates(device, tick)
    ensures var r := device(w, Wait(interval));
            var first, end := w.clk + 1, r.world.clk;
            && first < end && (end - first) % 2 == 1
            && (r.ok <==> tick(end - 1) >= w.m.deadline)
            && forall k {:trigger tick(k)} :: first <= k < end - 1 && (k - first) % 2 == 0 ==> tick(k) < w.m.deadline
  {
    WaitStep(device, tick, w, interval);
    LastPoll(tick, w.m.deadline, tick(w.clk) + interval, w.clk + 1);
    EarlierPolls(tick, w.m.deadline, tick(w.clk) + interval, w.clk + 1);
  }

  /** It goes on only as long as the clock shows less than the timeout in the loop condition, and
      gives up only when the clock shows more. */
  lemma WaitGivesUp(device: Device, tick: Schedule, w: World, interval: nat)
    requires Emulates(device, tick)
    ensures var r := device(w, Wait(interval));
            var first, end := w.clk + 1, r.world.clk;
            && (forall k {:trigger tick(k)} :: first < k < end - 2 && (k - first) % 2 == 1 ==>
                  tick(k) < tick(w.clk) + interval)
            && (!r.ok ==> first + 2 < end && tick(end - 2) >= tick(w.clk) + interval)
  {
    WaitStep(device, tick, w, interval);
    LoopCondition(tick, w.m.deadline, tick(w.clk) + interval, w.clk + 1);
  }

  /** Each sleep of this very wait, which comes between one of its polls and the reading of the
      clock after it, lasts at least the polling interval. */
  ghost predicate SleepsTakeTime(tick: Schedule, deadline: nat, timeout: nat, clk: nat) {
    forall k: nat {:trigger tick(k + 1)} ::
      clk <= k < PollFrom(tick, deadline, timeout, clk).clk - 1 && (k - clk) % 2 == 0 ==>
        tick(k + 1) >= tick(k) + NAND_POLL_INTERVAL_US
  }

  function Max(a: nat, b: nat): nat {
    if a < b then b else a
  }

  function CeilDiv(a: nat, b: nat): nat
    requires b > 0
  {
    (a + b - 1) / b
  }

  lemma NextRound(tick: Schedule, deadline: nat, timeout: nat, clk: nat)
    requires SleepsTakeTime(tick, deadline, timeout, clk)
    requires tick(clk) < deadline && tick(clk + 1) < timeout
    ensures SleepsTakeTime(tick, deadline, timeout, clk + 2)
    ensures tick(clk + 2) >= tick(clk) + NAND_POLL_INTERVAL_US
  {
    assert tick(clk + 1) >= tick(clk) + NAND_POLL_INTERVAL_US;
  }

  lemma {:induction false} PollsBounded(tick: Schedule, deadline: nat, timeout: nat, clk: nat, t: nat)
    requires SleepsTakeTime(tick, deadline, timeout, clk) && t <= tick(clk)
    ensures Polls(clk, PollFrom(tick, deadline, timeout, clk))
         <= Max(1, CeilDiv(if t < timeout then timeout - t else 0, NAND_POLL_INTERVAL_US)) + 1
    decreases if clk <= Horizon(tick, timeout) then Horizon(tick, timeout) - clk + 1 else 0
  {
    if tick(clk) < deadline && tick(clk + 1) < timeout {
      NextRound(tick, deadline, timeout, clk);
      PollsBounded(tick, deadline, timeout, clk + 2, t + NAND_POLL_INTERVAL_US);
    }
  }

  /** nand_wait with a timeout of `interval` microseconds polls at most
      max(1, ceil(interval / 25)) + 1 times. */
  lemma WaitPollsBounded(tick: Schedule, w: World, interval: nat)
    requires SleepsTakeTime(tick, w.m.deadline, tick(w.clk) + interval, w.clk + 1)
    ensures Polls(w.clk + 1, PollFrom(tick, w.m.deadline, tick(w.clk) + interval, w.clk + 1))
         <= Max(1, CeilDiv(interval, NAND_POLL_INTERVAL_US)) + 1
  {
    PollsBounded(tick, w.m.deadline, tick(w.clk) + interval, w.clk + 1, tick(w.clk));
  }
}
