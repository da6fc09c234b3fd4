/**
  The driver's request routine run against its device.  Every call is shown to be
  a run of the protocol in VirtioBlk, so what holds over all runs holds here.
 */
module VirtioDriver {
  import opened Common
  import opened Virtqueue
  import opened VirtqueueObject
  import opened VirtioBlk
  import opened VirtioMemory

  const MAX_POLL_ITERATIONS: nat := 1_000_000

  /** How a request ended; every ending but `Done(0)` is the same I/O error to the caller. */
  datatype Outcome = Done(status: byte) | NoDescriptors | GaveUp | Mismatched

  lemma {:induction false} RunsCompose(s: System, xs: seq<Step>, ys: seq<Step>)
    requires IsRun(s, xs) && IsRun(Final(s, xs), ys)
    ensures IsRun(s, xs + ys) && Final(s, xs + ys) == Final(Final(s, xs), ys)
    decreases |xs|
  {
    if xs == [] {
      assert xs + ys == ys;
    } else {
      RunsCompose(Apply(s, xs[0]), xs[1..], ys);
      assert (xs + ys)[1..] == xs[1..] + ys;
    }
  }

  lemma SingleStep(s: System, step: Step)
    requires Enabled(s, step)
    ensures IsRun(s, [step]) && Final(s, [step]) == Apply(s, step)
  {
  }

  /** The run is the device's alone. */
  ghost predicate DeviceOnly(steps: seq<Step>) {
    forall i :: 0 <= i < |steps| ==> steps[i].Complete?
  }

  lemma {:induction false} DeviceLeavesTable(s: System, steps: seq<Step>)
    requires IsRun(s, steps) && DeviceOnly(steps)
    ensures var s' := Final(s, steps); s'.table == s.table && s'.chains == s.chains && s'.phase == s.phase
    decreases |steps|
  {
    if steps != [] {
      DeviceLeavesTable(Apply(s, steps[0]), steps[1..]);
    }
  }

  /** A submission, some device activity and one ending make a run. */
  lemma RequestRun(s: System, r: Request, polled: seq<Step>, last: Step)
    requires Enabled(s, Submit(r)) && IsRun(Submitted(s, r), polled) && DeviceOnly(polled)
    requires Enabled(Final(Submitted(s, r), polled), last)
    ensures var steps := [Submit(r)] + polled + [last];
            && IsRun(s, steps) && Final(s, steps) == Apply(Final(Submitted(s, r), polled), last)
            && (TimeOut in steps <==> last == TimeOut)
  {
    SingleStep(s, Submit(r));
    RunsCompose(s, [Submit(r)], polled);
    SingleStep(Final(Submitted(s, r), polled), last);
    RunsCompose(s, [Submit(r)] + polled, [last]);
  }

  /** The ending decides how many descriptors are free: as before, or fewer by the request's own. */
  lemma RequestCost(s: System, r: Request, polled: seq<Step>, last: Step)
    requires Inv(s) && Enabled(s, Submit(r)) && IsRun(Submitted(s, r), polled) && DeviceOnly(polled)
    requires (last == TimeOut || last == Reap) && Enabled(Final(Submitted(s, r), polled), last)
    ensures var waiting := Final(Submitted(s, r), polled);
            Apply(waiting, last).table.numFree ==
            if last == Reap && waiting.used[0] == waiting.phase.head then s.table.numFree
            else s.table.numFree - Length(r)
  {
    var s1 := Submitted(s, r);
    var waiting := Final(s1, polled);
    DeviceLeavesTable(s1, polled);
    SubmitShape(s, r);
    StepKeepsInv(s, Submit(r));
    RunKeepsInv(s1, polled);
    if last == Reap && waiting.used[0] == waiting.phase.head {
      ReapShape(waiting);
    }
  }

  /** Distinct descriptor numbers cannot outnumber the table. */
  lemma DistinctFits(s: seq<nat>, size: nat)
    requires Distinct(s) && forall i :: 0 <= i < |s| ==> s[i] < size
    ensures |s| <= size
  {
    DistinctSize(s);
    DistinctSize(Range(0, size));
    SubsetSize(Elems(s), Elems(Range(0, size)));
  }

  lemma HeadsInTable(s: System)
    requires Inv(s)
    ensures forall h :: h in s.chains ==> h < |s.table.desc|
  {
  }

  /** Room for one more completion, so the used ring never overruns. */
  lemma RoomToReport(s: System, head: nat)
    requires Inv(s) && head in s.inFlight
    ensures |s.used| < |s.table.desc|
  {
    HeadsInTable(s);
    DistinctFits(s.used + [head], |s.table.desc|);
  }

  /** Room for one more published head, so the available ring never overruns. */
  lemma RoomToPublish(s: System, unfetched: seq<nat>)
    requires Inv(s) && Distinct(unfetched) && Elems(unfetched) <= s.inFlight && s.table.numFree > 0
    ensures |unfetched| < |s.table.desc|
  {
    forall i | 0 <= i < |unfetched| ensures unfetched[i] < Top(s) {
      assert unfetched[i] in Elems(unfetched);
      assert ChainStands(s.table.desc, unfetched[i], s.chains[unfetched[i]], Top(s));
    }
    DistinctFits(unfetched, Top(s));
  }

  /** The table once a chain for the request is allocated and written. */
  function Placed(t: Table, r: Request): Table
    requires t.numFree >= Length(r)
  {
    var (t', taken) := Alloc(t, Length(r));
    t'.(desc := Fill(t'.desc, taken.value, Descriptors(r, taken.value)))
  }

  /** All that publishing a request needs to know about the state it starts from. */
  lemma ReadyToPublish(s: System, held: set<nat>, unfetched: seq<nat>, r: Request)
    requires Inv(s) && Enabled(s, Submit(r))
    requires Distinct(unfetched) && s.inFlight == held + Elems(unfetched) && held !! Elems(unfetched)
    ensures var head := Alloc(s.table, Length(r)).1.value; var unfetched' := unfetched + [head];
            && head + Length(r) <= |s.table.desc|
            && |unfetched| < |s.table.desc|
            && Distinct(unfetched') && held !! Elems(unfetched')
            && held + Elems(unfetched') == s.inFlight + {head}
            && Inv(Submitted(s, r))
  {
    var head := Alloc(s.table, Length(r)).1.value;
    SubmitAddressesItsOwn(s, r);
    RoomToPublish(s, unfetched);
    StepKeepsInv(s, Submit(r));
    forall h | h in s.chains ensures h < Top(s) {
      assert ChainStands(s.table.desc, h, s.chains[h], Top(s));
    }
    assert head !in s.inFlight;
    assert forall i :: 0 <= i < |unfetched| ==> unfetched[i] in Elems(unfetched);
    assert Elems(unfetched + [head]) == Elems(unfetched) + {head};
  }

  /** Fetching the first unfetched head moves it into the device's hands and changes nothing in flight. */
  lemma FetchMoves(held: set<nat>, unfetched: seq<nat>)
    requires unfetched != [] && Distinct(unfetched) && held !! Elems(unfetched)
    ensures var head, rest := unfetched[0], unfetched[1..];
            && Distinct(rest) && held + {head} !! Elems(rest)
            && held + {head} + Elems(rest) == held + Elems(unfetched)
  {
  }

  /** All that the device's completion of a chain needs to know. */
  lemma ReadyToComplete(s: System, held: set<nat>, unfetched: seq<nat>, head: nat)
    requires Inv(s) && s.inFlight == held + Elems(unfetched) && held !! Elems(unfetched) && head in held
    ensures |s.used| < |s.table.desc|
    ensures Enabled(s, Complete(head)) && Inv(Completed(s, head))
    ensures Completed(s, head).inFlight == held - {head} + Elems(unfetched)
  {
    RoomToReport(s, head);
    StepKeepsInv(s, Complete(head));
  }

  /** All that collecting a completion needs to know. */
  lemma ReadyToCollect(s: System)
    requires Inv(s) && s.phase.Polling? && s.used != []
    ensures Enabled(s, Reap) && Inv(Reaped(s))
    ensures var chain := Range(s.phase.head, Top(s));
            IsChain(s.table.desc, chain) && chain[0] == s.phase.head && |chain| <= |s.table.desc|
  {
    HeadsInTable(s);
    CurrentChain(s);
    StepKeepsInv(s, Reap);
  }

  class Driver {
    const queue: Queue
    /** What the device has fetched and not completed. */
    var deviceHolds: set<nat>
    ghost var chains: map<nat, seq<Desc>>
    ghost var phase: Phase

    ghost predicate Valid()
      reads this, queue, queue.desc, queue.availRing, queue.usedRing
    {
      && queue.Valid() && queue.Even()
      && Inv(View())
      && Distinct(queue.Unfetched())
      && deviceHolds !! Elems(queue.Unfetched())
    }

    ghost function View(): System
      requires queue.Valid()
      reads this, queue, queue.desc, queue.availRing, queue.usedRing
    {
      System(queue.View(), chains, deviceHolds + Elems(queue.Unfetched()), queue.Pending(), phase)
    }

    constructor (size: nat)
      requires 0 < size <= VIRTQ_MAX_SIZE && Ring.WRAP % size == 0
      ensures Valid() && View() == Start(size)
      ensures fresh(queue) && fresh(queue.desc) && fresh(queue.availRing) && fresh(queue.usedRing)
    {
      queue := new Queue(size);
      deviceHolds, chains, phase := {}, map[], Idle;
      new;
      StartInv(size);
      assert View() == Start(size);
    }

    method DeviceFetches()
      requires Valid() && queue.Unfetched() != []
      modifies this`deviceHolds, queue`deviceSeen
      ensures Valid() && View() == old(View())
    {
      ghost var unfetched := queue.Unfetched();
      var head := queue.DeviceFetch();
      FetchMoves(deviceHolds, unfetched);
      deviceHolds := deviceHolds + {head};
    }

    method DeviceCompletes(head: nat)
      requires Valid() && head in deviceHolds
      modifies this`deviceHolds, queue`usedIdx, queue.usedRing
      ensures Valid() && View() == Completed(old(View()), head)
    {
      ReadyToComplete(View(), deviceHolds, queue.Unfetched(), head);
      queue.DeviceReport(head);
      deviceHolds := deviceHolds - {head};
    }

    /** The device fetches a published chain, or completes one it holds, or does nothing. */
    method DeviceActs() returns (ghost steps: seq<Step>)
      requires Valid()
      modifies this`deviceHolds, queue`deviceSeen, queue`usedIdx, queue.usedRing
      ensures Valid()
      ensures IsRun(old(View()), steps) && View() == Final(old(View()), steps)
      ensures DeviceOnly(steps)
    {
      steps := [];
      var fetch: bool := *;
      var complete: bool := *;
      if fetch && queue.deviceSeen != queue.availIdx {
        DeviceFetches();
      } else if complete && deviceHolds != {} {
        var head :| head in deviceHolds;
        SingleStep(View(), Complete(head));
        steps := [Complete(head)];
        DeviceCompletes(head);
      }
    }

    /** The descriptor writes of a request, addressed from the head by arithmetic. */
    method WriteChain(r: Request, head: nat)
      requires queue.Valid() && head + Length(r) <= queue.size
      modifies queue.desc
      ensures queue.desc[..] == Fill(old(queue.desc[..]), head, Descriptors(r, head))
    {
      FillWrites(queue.desc[..], head, Descriptors(r, head));
      match r {
        case Transfer(headerAddr, dataAddr, dataLen, isWrite, statusAddr) =>
          var data, status := head + 1, head + 2;
          queue.desc[head] := Desc(headerAddr, 16, true, false, data);
          queue.desc[data] := Desc(dataAddr, dataLen, true, !isWrite, status);
          queue.desc[status] := Desc(statusAddr, 1, false, true, 0);
        case Flush(headerAddr, statusAddr) =>
          var status := head + 1;
          queue.desc[head] := Desc(headerAddr, 16, true, false, status);
          queue.desc[status] := Desc(statusAddr, 1, false, true, 0);
      }
    }

    /** The queue's part of a submission: a chain allocated, written and put on the available ring. */
    method PlaceChain(r: Request) returns (head: Option<nat>)
      requires queue.Valid() && queue.Even() && Sound(queue.View())
      requires Alloc(queue.View(), Length(r)).1.Some? ==>
          Alloc(queue.View(), Length(r)).1.value + Length(r) <= queue.size && |queue.Unfetched()| < queue.size
      modifies queue`freeHead, queue`numFree, queue`availIdx, queue.desc, queue.availRing
      ensures queue.Valid() && queue.Pending() == old(queue.Pending())
      ensures head == Alloc(old(queue.View()), Length(r)).1
      ensures head.None? ==> queue.View() == old(queue.View()) && queue.Unfetched() == old(queue.Unfetched())
      ensures head.Some? ==>
                && queue.View() == Placed(old(queue.View()), r)
                && queue.Unfetched() == old(queue.Unfetched()) + [head.value]
    {
      head := queue.AllocDesc(Length(r));
      if head.Some? {
        WriteChain(r, head.value);
        queue.AddToAvail(head.value);
      }
    }

    /** The driver's part of a submission: it remembers the chain and starts polling for it. */
    method Remember(r: Request, head: nat, ghost before: System)
      requires before.table.numFree >= Length(r) && Alloc(before.table, Length(r)).1 == Some(head)
      requires queue.Valid() && queue.View() == Placed(before.table, r) && queue.Pending() == before.used
      requires chains == before.chains && deviceHolds + Elems(queue.Unfetched()) == before.inFlight + {head}
      modifies this`chains, this`phase
      ensures queue.Valid() && View() == Submitted(before, r)
    {
      chains := chains[head := Descriptors(r, head)];
      phase := Polling(head);
    }

    /** Allocates, writes and publishes a chain; refuses, changing nothing, when too few descriptors are free. */
    method Publish(r: Request) returns (head: Option<nat>)
      requires Valid() && phase == Idle
      modifies this`chains, this`phase, queue`freeHead, queue`numFree, queue`availIdx, queue.desc, queue.availRing
      ensures Valid()
      ensures head.None? <==> Enabled(old(View()), Refuse(r))
      ensures head.None? ==> View() == old(View())
      ensures head.Some? ==> View() == Submitted(old(View()), r) && phase == Polling(head.value)
      ensures head.Some? ==> head.value < queue.size && Serves(Followed(queue.desc[..], head.value), r)
    {
      ghost var before, unfetched := View(), queue.Unfetched();
      if Enabled(before, Submit(r)) {
        ReadyToPublish(before, deviceHolds, unfetched, r);
        SubmitServes(before, r);
      }
      head := PlaceChain(r);
      if head.Some? {
        Remember(r, head.value, before);
      }
    }

    /** Any number of device actions. */
    method DeviceRuns() returns (ghost steps: seq<Step>)
      requires Valid()
      modifies this`deviceHolds, queue`deviceSeen, queue`usedIdx, queue.usedRing
      ensures Valid()
      ensures IsRun(old(View()), steps) && View() == Final(old(View()), steps)
      ensures DeviceOnly(steps)
    {
      steps := [];
      var budget: nat := *;
      while budget > 0
        invariant Valid() && IsRun(old(View()), steps) && View() == Final(old(View()), steps) && DeviceOnly(steps)
      {
        ghost var more := DeviceActs();
        RunsCompose(old(View()), steps, more);
        steps := steps + more;
        budget := budget - 1;
      }
    }

    /** One turn of the polling loop, with whatever the device does before the driver looks again. */
    method PollOnce(ghost start: System, ghost sofar: seq<Step>) returns (ready: bool, ghost steps: seq<Step>)
      requires Valid() && IsRun(start, sofar) && View() == Final(start, sofar) && DeviceOnly(sofar)
      modifies this`deviceHolds, queue`deviceSeen, queue`usedIdx, queue.usedRing
      ensures Valid() && IsRun(start, steps) && View() == Final(start, steps) && DeviceOnly(steps)
      ensures ready <==> queue.Pending() != []
    {
      ghost var more := DeviceRuns();
      RunsCompose(start, sofar, more);
      steps := sofar + more;
      ready := queue.HasUsed();
    }

    /** Polls until a completion shows or patience runs out, with the device active all the while. */
    method AwaitUsed() returns (ready: bool, ghost steps: seq<Step>)
      requires Valid()
      modifies this`deviceHolds, queue`deviceSeen, queue`usedIdx, queue.usedRing
      ensures Valid()
      ensures IsRun(old(View()), steps) && View() == Final(old(View()), steps)
      ensures DeviceOnly(steps)
      ensures ready <==> queue.Pending() != []
    {
      steps := DeviceRuns();
      var iterations := 0;
      ready := queue.HasUsed();
      while !ready
        invariant Valid() && IsRun(old(View()), steps) && View() == Final(old(View()), steps) && DeviceOnly(steps)
        invariant ready <==> queue.Pending() != []
        decreases MAX_POLL_ITERATIONS + 1 - iterations
      {
        iterations := iterations + 1;
        if iterations > MAX_POLL_ITERATIONS {
          return;
        }
        ready, steps := PollOnce(old(View()), steps);
      }
    }

    /** Reads one completion and frees the chain if the completion is its own. */
    method Collect(head: nat) returns (matched: bool)
      requires Valid() && phase == Polling(head) && queue.Pending() != []
      modifies this`chains, this`phase, queue`lastUsedIdx, queue`freeHead, queue`numFree, queue.desc
      ensures Valid()
      ensures Enabled(old(View()), Reap) && View() == Reaped(old(View()))
      ensures matched <==> old(View()).used[0] == head
    {
      ghost var before := View();
      ReadyToCollect(before);
      var id := queue.GetUsed();
      matched := id == Some(head);
      if matched {
        queue.FreeDesc(head, Range(head, Top(before)));
        chains := chains - {head};
      }
      phase := Idle;
      assert View() == Reaped(before);
    }

    /** Stops waiting; the published chain stays with the device. */
    method GiveUp()
      requires Valid() && phase.Polling? && queue.Pending() == []
      modifies this`phase
      ensures Valid()
      ensures Enabled(old(View()), TimeOut) && View() == Apply(old(View()), TimeOut)
    {
      StepKeepsInv(View(), TimeOut);
      phase := Idle;
    }

    /** Waits for a completion, then collects it or gives up. */
    method Conclude(head: nat) returns (outcome: Outcome, ghost polled: seq<Step>, ghost last: Step)
      requires Valid() && phase == Polling(head)
      modifies this, queue, queue.desc, queue.usedRing
      ensures Valid() && phase == Idle
      ensures IsRun(old(View()), polled) && DeviceOnly(polled)
      ensures last == TimeOut || last == Reap
      ensures var waiting := Final(old(View()), polled);
              && Enabled(waiting, last) && View() == Apply(waiting, last)
              && (outcome.Done? <==> last == Reap && waiting.used[0] == head)
              && (outcome.Mismatched? <==> last == Reap && waiting.used[0] != head)
              && (outcome.GaveUp? <==> last == TimeOut)
    {
      var ready;
      ready, polled := AwaitUsed();
      if !ready {
        GiveUp();
        return GaveUp, polled, TimeOut;
      }
      var matched := Collect(head);
      if !matched {
        return Mismatched, polled, Reap;
      }
      var status: byte := *;
      return Done(status), polled, Reap;
    }

    /**
      One request, from allocation to outcome, with the device acting throughout.
      The whole call is a run of the protocol; a completed request restores the
      number of free descriptors and an abandoned one costs exactly its own.
     */
    method Perform(r: Request) returns (outcome: Outcome, ghost steps: seq<Step>)
      requires Valid() && phase == Idle
      modifies this, queue, queue.desc, queue.availRing, queue.usedRing
      ensures Valid() && phase == Idle
      ensures IsRun(old(View()), steps) && View() == Final(old(View()), steps)
      ensures outcome.NoDescriptors? <==> old(queue.numFree) < Length(r)
      ensures outcome.GaveUp? <==> TimeOut in steps
      ensures queue.numFree == old(queue.numFree) - if outcome.GaveUp? || outcome.Mismatched? then Length(r) else 0
    {
      ghost var start := View();
      var head := Publish(r);
      if head.None? {
        SingleStep(start, Refuse(r));
        return NoDescriptors, [Refuse(r)];
      }
      ghost var polled: seq<Step>, last: Step;
      outcome, polled, last := Conclude(head.value);
      steps := [Submit(r)] + polled + [last];
      RequestRun(start, r, polled, last);
      RequestCost(start, r, polled, last);
      DeviceLeavesTable(Submitted(start, r), polled);
    }
  }
}
