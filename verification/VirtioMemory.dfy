/** The memory a published request exposes: what the device may read, what it may write, and nothing else. */
module VirtioMemory {
  import opened Common
  import opened Virtqueue
  import opened VirtioBlk

  datatype Region = Region(addr: nat, len: nat)

  /** The descriptors a device meets by following the table from a head. */
  function Followed(desc: seq<Desc>, head: nat): seq<Desc>
    requires head < |desc|
  {
    var chain := ChainFrom(desc, head, |desc|);
    seq(|chain|, i requires 0 <= i < |chain| => desc[chain[i]])
  }

  function Writable(ds: seq<Desc>): seq<Region> {
    if ds == [] then []
    else (if ds[0].deviceWrites then [Region(ds[0].addr, ds[0].len)] else []) + Writable(ds[1..])
  }

  function ReadOnly(ds: seq<Desc>): seq<Region> {
    if ds == [] then []
    else (if ds[0].deviceWrites then [] else [Region(ds[0].addr, ds[0].len)]) + ReadOnly(ds[1..])
  }

  /** The caller's buffer of a read, and of a write. */
  function Filled(r: Request): seq<Region> {
    if r.Transfer? && !r.isWrite then [Region(r.dataAddr, r.dataLen)] else []
  }

  function Drained(r: Request): seq<Region> {
    if r.Transfer? && r.isWrite then [Region(r.dataAddr, r.dataLen)] else []
  }

  /** All that is to be read comes before all that is to be written. */
  ghost predicate ReadsFirst(ds: seq<Desc>) {
    forall i, j :: 0 <= i < j < |ds| && ds[i].deviceWrites ==> ds[j].deviceWrites
  }

  /**
    The chain serves the request: the device reads the sixteen-byte header, then the
    buffer to be written out; it fills the buffer to be read in, then the status byte.
   */
  ghost predicate Serves(ds: seq<Desc>, r: Request) {
    && ReadOnly(ds) == [Region(r.headerAddr, 16)] + Drained(r)
    && Writable(ds) == Filled(r) + [Region(r.statusAddr, 1)]
    && ReadsFirst(ds)
  }

  lemma DescriptorsServe(r: Request, head: nat)
    ensures Serves(Descriptors(r, head), r)
  {
    var ds := Descriptors(r, head);
    var status := ds[|ds| - 1];
    OneRegion(status);
    if r.Transfer? {
      assert ds[1..] == [ds[1]] + [status] && ds == [ds[0]] + ds[1..];
      RegionsCons(ds[1], [status]);
      RegionsCons(ds[0], ds[1..]);
    } else {
      assert ds[1..] == [status] && ds == [ds[0]] + ds[1..];
      RegionsCons(ds[0], [status]);
    }
  }

  lemma RegionsCons(d: Desc, ds: seq<Desc>)
    ensures Writable([d] + ds) == (if d.deviceWrites then [Region(d.addr, d.len)] else []) + Writable(ds)
    ensures ReadOnly([d] + ds) == (if d.deviceWrites then [] else [Region(d.addr, d.len)]) + ReadOnly(ds)
  {
    assert ([d] + ds)[1..] == ds;
  }

  lemma OneRegion(d: Desc)
    ensures Writable([d]) == if d.deviceWrites then [Region(d.addr, d.len)] else []
    ensures ReadOnly([d]) == if d.deviceWrites then [] else [Region(d.addr, d.len)]
  {
    RegionsCons(d, []);
    assert [d] + [] == [d];
  }

  /** The request last submitted at each head in the course of a run. */
  function Asked(s: System, steps: seq<Step>, asked: map<nat, Request>): map<nat, Request>
    requires IsRun(s, steps)
    decreases |steps|
  {
    if steps == [] then asked
    else
      var s' := Apply(s, steps[0]);
      Asked(s', steps[1..], if steps[0].Submit? then asked[s'.phase.head := steps[0].request] else asked)
  }

  ghost predicate ChainsServe(s: System, asked: map<nat, Request>) {
    forall h :: h in s.chains ==> h in asked && Serves(s.chains[h], asked[h])
  }

  lemma SubmitStepServes(s: System, r: Request, asked: map<nat, Request>)
    requires Enabled(s, Submit(r)) && ChainsServe(s, asked)
    ensures ChainsServe(Submitted(s, r), asked[Submitted(s, r).phase.head := r])
  {
    DescriptorsServe(r, Submitted(s, r).phase.head);
  }

  lemma OtherStepServes(s: System, step: Step, asked: map<nat, Request>)
    requires Enabled(s, step) && !step.Submit? && ChainsServe(s, asked)
    ensures ChainsServe(Apply(s, step), asked)
  {
  }

  lemma StepServes(s: System, step: Step, asked: map<nat, Request>)
    requires Enabled(s, step) && ChainsServe(s, asked)
    ensures var s' := Apply(s, step);
            ChainsServe(s', if step.Submit? then asked[s'.phase.head := step.request] else asked)
  {
    if step.Submit? {
      SubmitStepServes(s, step.request, asked);
    } else {
      OtherStepServes(s, step, asked);
    }
  }

  lemma {:induction false} RunServes(s: System, steps: seq<Step>, asked: map<nat, Request>)
    requires Inv(s) && IsRun(s, steps) && ChainsServe(s, asked)
    ensures ChainsServe(Final(s, steps), Asked(s, steps, asked))
    decreases |steps|
  {
    if steps != [] {
      var s' := Apply(s, steps[0]);
      StepKeepsInv(s, steps[0]);
      StepServes(s, steps[0], asked);
      RunServes(s', steps[1..], if steps[0].Submit? then asked[s'.phase.head := steps[0].request] else asked);
    }
  }

  /** Following a standing chain meets its descriptors. */
  lemma FollowedIsChain(desc: seq<Desc>, head: nat, ds: seq<Desc>, top: int)
    requires ChainStands(desc, head, ds, top)
    ensures head < |desc| && Followed(desc, head) == ds
  {
    var end := head + |ds|;
    ChainStillStands(desc, desc, head, ds, top, end);
    StandingIsChain(desc, head, ds, end);
    ChainFound(desc, Range(head, end), |desc|);
    forall i | 0 <= i < |ds| ensures desc[head + i] == ds[i] {
      assert desc[head..end][i] == desc[head + i];
    }
  }

  /**
    In every run, whatever has timed out or been completed out of order: the chain at a
    head the device holds lets it write exactly the caller's buffer of a read and the
    status byte, and only read the header and the caller's buffer of a write.
   */
  lemma DeviceTouchesItsOwn(size: nat, steps: seq<Step>, h: nat)
    requires IsRun(Start(size), steps) && h in Final(Start(size), steps).inFlight
    ensures var s, asked := Final(Start(size), steps), Asked(Start(size), steps, map[]);
            && h in asked && h < |s.table.desc|
            && Serves(Followed(s.table.desc, h), asked[h])
  {
    StartInv(size);
    RunKeepsInv(Start(size), steps);
    RunServes(Start(size), steps, map[]);
    var s := Final(Start(size), steps);
    assert ChainStands(s.table.desc, h, s.chains[h], Top(s));
    FollowedIsChain(s.table.desc, h, s.chains[h], Top(s));
  }

  /** Right after a submission, the chain polled for serves the request submitted. */
  lemma SubmitServes(s: System, r: Request)
    requires Inv(s) && Enabled(s, Submit(r))
    ensures var s' := Submitted(s, r);
            && s'.phase.Polling? && s'.phase.head in s'.inFlight && s'.phase.head < |s'.table.desc|
            && Serves(Followed(s'.table.desc, s'.phase.head), r)
  {
    var s' := Submitted(s, r);
    var h := s'.phase.head;
    StepKeepsInv(s, Submit(r));
    DescriptorsServe(r, h);
    assert ChainStands(s'.table.desc, h, s'.chains[h], Top(s'));
    FollowedIsChain(s'.table.desc, h, s'.chains[h], Top(s'));
  }
}
