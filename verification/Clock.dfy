/** The microsecond clock of clock/clock.c and the busy deadline of device/de_deadline.c. */
module Clock {

  ghost predicate Reaches(tick: nat -> nat, t: nat) {
    exists i: nat :: tick(i) >= t
  }

  /** Successive readings of a clock: they never decrease, and time does not stand still
      for ever. */
  ghost predicate IsClock(tick: nat -> nat) {
    && (forall i: nat, j: nat :: i <= j ==> tick(i) <= tick(j))
    && (forall t: nat :: Reaches(tick, t))
  }

  function Counting(): (tick: nat -> nat)
    ensures IsClock(tick)
  {
    var tick := (i: nat) => i;
    assert forall t: nat :: Reaches(tick, t) by {
      forall t: nat ensures Reaches(tick, t) {
        assert tick(t) >= t;
      }
    }
    tick
  }

  type Schedule = tick: nat -> nat | IsClock(tick) witness Counting()

  /** Some reading at which time t has come. */
  ghost function Horizon(tick: Schedule, t: nat): (i: nat)
    ensures forall j: nat :: i <= j ==> tick(j) >= t
  {
    assert Reaches(tick, t);
    var i: nat :| tick(i) >= t;
    i
  }

  class Clock {
    const tick: Schedule
    var readings: nat

    constructor (tick: Schedule)
      ensures this.tick == tick && readings == 0
    {
      this.tick := tick;
      readings := 0;
    }

    method Now() returns (t: nat)
      modifies this
      ensures t == tick(old(readings)) && readings == old(readings) + 1
    {
      t := tick(readings);
      readings := readings + 1;
    }
  }

  class Deadline {
    const clock: Clock
    var deadline: nat

    /** deadline_init */
    constructor (clock: Clock)
      ensures this.clock == clock && deadline == 0
    {
      this.clock := clock;
      deadline := 0;
    }

    method Clear()
      modifies this
      ensures deadline == 0
    {
      deadline := 0;
    }

    method BeforeDeadline() returns (busy: bool)
      modifies clock
      ensures busy == (clock.tick(old(clock.readings)) < deadline)
      ensures clock.readings == old(clock.readings) + 1
    {
      var timenow := clock.Now();
      busy := timenow < deadline;
    }

    method Set(duration: nat)
      modifies this, clock
      ensures deadline == clock.tick(old(clock.readings)) + duration
      ensures clock.readings == old(clock.readings) + 1
    {
      var t := clock.Now();
      deadline := t + duration;
    }
  }
}
