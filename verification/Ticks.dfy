/** The PIT tick accumulator and the kernel tick counter it feeds. */
module Ticks {
  import opened Common

  /** The counter runs down from the reload value and starts over. */
  const RELOAD: nat := 1193

  const U64_MAX: nat := 0xFFFF_FFFF_FFFF_FFFF

  /** What the hardware counter shows `step` steps after it was loaded. */
  function Reading(step: nat): (r: nat)
    ensures 1 <= r <= RELOAD
  {
    RELOAD - step % RELOAD
  }

  /** Steps elapsed between two readings, assuming at most one wrap. */
  function Delta(last: nat, current: nat): nat
    requires last <= RELOAD && current <= RELOAD
  {
    if current <= last then last - current else last + (RELOAD - current)
  }

  /** Two readings tell the elapsed steps modulo the reload period. */
  lemma DeltaIsElapsed(step: nat, later: nat)
    requires step <= later
    ensures Delta(Reading(step), Reading(later)) == (later - step) % RELOAD
  {
  }

  /** The steps counted up to poll `i`: each gap, less whole periods. */
  function Counted(times: seq<nat>, i: nat): nat
    requires i < |times| && Ascending(times)
  {
    if i == 0 then 0 else Counted(times, i - 1) + (times[i] - times[i - 1]) % RELOAD
  }

  predicate Ascending(times: seq<nat>) {
    forall i :: 0 < i < |times| ==> times[i - 1] <= times[i]
  }

  /** No two consecutive polls up to `i` are a whole period apart. */
  ghost predicate Prompt(times: seq<nat>, i: nat)
    requires i < |times|
  {
    forall k :: 0 < k <= i ==> times[k] < times[k - 1] + RELOAD
  }

  /** The count is exact exactly when every gap so far is under one period; otherwise it falls short. */
  lemma {:induction false} ExactIffPrompt(times: seq<nat>, i: nat)
    requires i < |times| && Ascending(times)
    ensures times[0] <= times[i]
    ensures Counted(times, i) <= times[i] - times[0]
    ensures Counted(times, i) == times[i] - times[0] <==> Prompt(times, i)
    decreases i
  {
    if i > 0 {
      ExactIffPrompt(times, i - 1);
      var gap := times[i] - times[i - 1];
      assert gap % RELOAD <= gap && (gap % RELOAD == gap <==> gap < RELOAD);
    }
  }

  /** A poll a whole period after the first counts nothing. */
  lemma LatePollCountsNothing()
    ensures Ascending([0, 1193]) && Counted([0, 1193], 1) == 0
  {
  }

  class PitTimer {
    var cumulativeTicks: nat
    var lastCounter: nat
    var initialized: bool

    constructor ()
      ensures !initialized && cumulativeTicks == 0
    {
      cumulativeTicks, lastCounter, initialized := 0, 0, false;
    }

    method UpdateTicks(current: nat)
      requires lastCounter <= RELOAD && current <= RELOAD
      modifies this
      ensures cumulativeTicks == old(cumulativeTicks) + Delta(old(lastCounter), current)
      ensures lastCounter == current && initialized == old(initialized)
    {
      var delta;
      if current <= lastCounter {
        delta := lastCounter - current;
      } else {
        delta := lastCounter + (RELOAD - current);
      }
      cumulativeTicks := cumulativeTicks + delta;
      lastCounter := current;
    }

    /** The first poll only takes a reading; later polls add what elapsed. */
    method PollTicks(reading: nat) returns (ticks: nat)
      requires reading <= RELOAD && (initialized ==> lastCounter <= RELOAD)
      modifies this
      ensures initialized && lastCounter == reading
      ensures !old(initialized) ==> ticks == 0 && cumulativeTicks == old(cumulativeTicks)
      ensures old(initialized) ==> ticks == cumulativeTicks == old(cumulativeTicks) + Delta(old(lastCounter), reading)
    {
      if !initialized {
        initialized := true;
        lastCounter := reading;
        return 0;
      }
      UpdateTicks(reading);
      ticks := cumulativeTicks;
    }
  }

  class KernelTickCounter {
    const timer: PitTimer
    var lastTicks: nat
    var totalTicks: nat

    constructor (timer: PitTimer)
      ensures this.timer == timer && lastTicks == 0 && totalTicks == 0
    {
      this.timer := timer;
      lastTicks, totalTicks := 0, 0;
    }

    /** Saturating in both the difference and the sum, as the 64-bit counter is. */
    method Poll(reading: nat) returns (total: nat)
      requires reading <= RELOAD && (timer.initialized ==> timer.lastCounter <= RELOAD)
      modifies this, timer
      ensures timer.initialized && timer.lastCounter == reading
      ensures timer.cumulativeTicks == old(timer.cumulativeTicks) +
              if old(timer.initialized) then Delta(old(timer.lastCounter), reading) else 0
      ensures lastTicks == if old(timer.initialized) then timer.cumulativeTicks else 0
      ensures total == totalTicks == Min(old(totalTicks) + Max(lastTicks - old(lastTicks), 0), U64_MAX)
    {
      var current := timer.PollTicks(reading);
      var delta := Max(current - lastTicks, 0);
      totalTicks := Min(totalTicks + delta, U64_MAX);
      lastTicks := current;
      total := totalTicks;
    }
  }

  /** Polls a fresh timer and counter at the given times. */
  method CountAll(times: seq<nat>) returns (reports: seq<nat>)
    requires Ascending(times) && (times != [] ==> times[|times| - 1] - times[0] <= U64_MAX)
    ensures |reports| == |times|
    ensures forall i :: 0 <= i < |times| ==> reports[i] == Counted(times, i)
  {
    var timer := new PitTimer();
    var counter := new KernelTickCounter(timer);
    reports := [];
    for i := 0 to |times|
      invariant |reports| == i && counter.timer == timer && Before(counter, times, i)
      invariant forall k :: 0 <= k < i ==> reports[k] == Counted(times, k)
    {
      var total := PollAt(counter, times, i);
      reports := reports + [total];
    }
  }

  method PollAt(counter: KernelTickCounter, times: seq<nat>, i: nat) returns (total: nat)
    requires Ascending(times) && i < |times| && times[|times| - 1] - times[0] <= U64_MAX && Before(counter, times, i)
    modifies counter, counter.timer
    ensures Before(counter, times, i + 1) && total == Counted(times, i)
  {
    CountFits(times, i);
    if i > 0 {
      DeltaIsElapsed(times[i - 1], times[i]);
    }
    total := counter.Poll(Reading(times[i]));
  }

  /** Timer and counter just before poll `i`. */
  ghost predicate Before(counter: KernelTickCounter, times: seq<nat>, i: nat)
    requires i <= |times| && Ascending(times)
    reads counter, counter.timer
  {
    && (counter.timer.initialized <==> i > 0)
    && (i > 0 ==> counter.timer.lastCounter == Reading(times[i - 1]))
    && counter.timer.cumulativeTicks == counter.lastTicks == counter.totalTicks == if i == 0 then 0
        else Counted(times, i - 1)
  }

  /**
    Polls at any ascending times report the number of counter steps since the
    first poll exactly as long as consecutive polls are under one reload period
    apart, and never more.
   */
  method PollAll(times: seq<nat>) returns (reports: seq<nat>)
    requires Ascending(times) && (times != [] ==> times[|times| - 1] - times[0] <= U64_MAX)
    ensures |reports| == |times|
    ensures forall i :: 0 <= i < |times| ==> times[0] + reports[i] <= times[i]
    ensures forall i :: 0 <= i < |times| ==> (times[0] + reports[i] == times[i] <==> Prompt(times, i))
  {
    reports := CountAll(times);
    forall i | 0 <= i < |times|
      ensures times[0] + reports[i] <= times[i]
      ensures times[0] + reports[i] == times[i] <==> Prompt(times, i)
    {
      ExactIffPrompt(times, i);
    }
  }

  lemma {:induction false} AscendingTo(times: seq<nat>, i: nat)
    requires Ascending(times) && i < |times|
    ensures times[i] <= times[|times| - 1]
    decreases |times| - i
  {
    if i + 1 < |times| {
      AscendingTo(times, i + 1);
    }
  }

  /** The count stays within 64 bits when the elapsed time does. */
  lemma CountFits(times: seq<nat>, i: nat)
    requires Ascending(times) && i < |times| && times[|times| - 1] - times[0] <= U64_MAX
    ensures Counted(times, i) <= U64_MAX
  {
    ExactIffPrompt(times, i);
    AscendingTo(times, i);
  }
}
