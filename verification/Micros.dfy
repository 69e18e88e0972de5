/** `micros_now` on the Arduino Uno: a 64-bit time from a 32-bit counter that wraps. */
module Micros {
  const WRAP: nat := 0x1_0000_0000

  class MicrosClock {
    var prev: nat
    var wraps: nat

    ghost predicate Valid()
      reads this
    {
      prev < WRAP && wraps < WRAP
    }

    ghost function Time(): nat
      reads this
    {
      wraps * WRAP + prev
    }

    constructor ()
      ensures Valid() && Time() == 0
    {
      prev, wraps := 0, 0;
    }

    /** One call; the wrap counter has 32 bits itself. */
    method MicrosNow(now: nat) returns (r: nat)
      requires Valid() && now < WRAP
      modifies this
      ensures Valid() && r == Time() && prev == now
      ensures wraps == if now < old(prev) then (old(wraps) + 1) % WRAP else old(wraps)
      ensures r >= old(Time()) <==> now >= old(prev) || old(wraps) + 1 < WRAP
    {
      if now < prev {
        wraps := (wraps + 1) % WRAP;
      }
      prev := now;
      r := wraps * WRAP + now;
    }
  }

  function Before(times: seq<nat>, i: nat): nat
    requires i <= |times|
  {
    if i == 0 then 0 else times[i - 1]
  }

  /** Called at least once in every 2^32 microseconds, it gives the true time at every call. */
  method Track(times: seq<nat>) returns (readings: seq<nat>)
    requires forall i | 0 <= i < |times| :: Before(times, i) <= times[i] < Before(times, i) + WRAP
    requires forall i | 0 <= i < |times| :: times[i] < WRAP * WRAP
    ensures readings == times
  {
    var clock := new MicrosClock();
    readings := [];
    for i := 0 to |times|
      invariant clock.Valid() && fresh(clock) && readings == times[..i]
      invariant clock.Time() == Before(times, i)
    {
      assert clock.wraps * WRAP + clock.prev == clock.Time();
      TrueTime(clock.wraps, clock.prev, times[i]);
      var r := clock.MicrosNow(times[i] % WRAP);
      readings := readings + [r];
    }
  }

  /** Less than one turn of the counter apart, the true time is found from its low part. */
  lemma TrueTime(wraps: nat, prev: nat, time: nat)
    requires prev < WRAP && wraps * WRAP + prev <= time < wraps * WRAP + prev + WRAP && time < WRAP * WRAP
    ensures var now := time % WRAP;
      var turns := if now < prev then wraps + 1 else wraps;
      turns < WRAP && time == turns * WRAP + now
  {
    var now := time % WRAP;
    assert time == time / WRAP * WRAP + now;
  }

  /** As many wraps as the counter can count; the next one sets it back to 0, and the time with it. */
  method GoesBack() returns (before: nat, after: nat)
    ensures after < before
  {
    var clock := new MicrosClock();
    for i := 0 to WRAP - 1
      invariant clock.Valid() && fresh(clock) && clock.wraps == i && clock.prev == 0
    {
      var high := clock.MicrosNow(1);
      var low := clock.MicrosNow(0);
    }
    before := clock.MicrosNow(6);
    after := clock.MicrosNow(3);
  }
}
