/**
  The virtio block driver as a protocol with its device: requests are published,
  the device completes each published chain at most once, in any order and after
  any delay, and the driver polls, gives up, or reaps.
 */
module VirtioBlk {
  import opened Common
  import opened Virtqueue

  datatype Request =
    | Transfer(headerAddr: nat, dataAddr: nat, dataLen: nat, isWrite: bool, statusAddr: nat)
    | Flush(headerAddr: nat, statusAddr: nat)

  function Length(r: Request): nat {
    if r.Transfer? then 3 else 2
  }

  /** The descriptors the driver writes, linked by adding one and two to the head. */
  function Descriptors(r: Request, head: nat): (ds: seq<Desc>)
    ensures |ds| == Length(r)
  {
    match r
    case Transfer(headerAddr, dataAddr, dataLen, isWrite, statusAddr) =>
      [Desc(headerAddr, 16, true, false, head + 1),
       Desc(dataAddr, dataLen, true, !isWrite, head + 2),
       Desc(statusAddr, 1, false, true, 0)]
    case Flush(headerAddr, statusAddr) =>
      [Desc(headerAddr, 16, true, false, head + 1),
       Desc(statusAddr, 1, false, true, 0)]
  }

  datatype Phase = Idle | Polling(head: nat)

  /**
    The table, the chains published and not given back with what was written in
    them, the heads the device holds, the heads it has completed and the driver
    has not read, and what the driver is doing.
   */
  datatype System = System(
    table: Table, chains: map<nat, seq<Desc>>, inFlight: set<nat>, used: seq<nat>, phase: Phase)

  datatype Step =
    | Submit(request: Request)
    | Refuse(request: Request)
    | Complete(head: nat)
    | TimeOut
    | Reap

  function Start(size: nat): System {
    System(NewTable(size), map[], {}, [], Idle)
  }

  predicate Enabled(s: System, step: Step) {
    match step
    case Submit(r) => s.phase == Idle && s.table.numFree >= Length(r)
    case Refuse(r) => s.phase == Idle && s.table.numFree < Length(r)
    case Complete(head) => head in s.inFlight
    case TimeOut => s.phase.Polling? && s.used == []
    case Reap => s.phase.Polling? && s.used != [] && s.phase.head < |s.table.desc|
  }

  /** Descriptor writes at consecutive positions; a position outside the table is not written. */
  function Fill(desc: seq<Desc>, at: nat, ds: seq<Desc>): (filled: seq<Desc>)
    ensures |filled| == |desc|
    decreases |ds|
  {
    if ds == [] then desc else Fill(if at < |desc| then desc[at := ds[0]] else desc, at + 1, ds[1..])
  }

  function Submitted(s: System, r: Request): System
    requires s.table.numFree >= Length(r)
  {
    var (t, taken) := Alloc(s.table, Length(r));
    var head := taken.value;
    var ds := Descriptors(r, head);
    System(t.(desc := Fill(t.desc, head, ds)), s.chains[head := ds], s.inFlight + {head}, s.used, Polling(head))
  }

  function Completed(s: System, head: nat): System {
    s.(inFlight := s.inFlight - {head}, used := s.used + [head])
  }

  /** The driver frees its chain only when the completion it reads names it; otherwise the chain is abandoned. */
  function Reaped(s: System): System
    requires s.phase.Polling? && s.used != [] && s.phase.head < |s.table.desc|
  {
    var head := s.phase.head;
    if s.used[0] != head then s.(used := s.used[1..], phase := Idle)
    else s.(used := s.used[1..], phase := Idle, table := FreeFrom(s.table, head), chains := s.chains - {head})
  }

  function Apply(s: System, step: Step): System
    requires Enabled(s, step)
  {
    match step
    case Submit(r) => Submitted(s, r)
    case Refuse(_) => s
    case Complete(head) => Completed(s, head)
    case TimeOut => s.(phase := Idle)
    case Reap => Reaped(s)
  }

  predicate IsRun(s: System, steps: seq<Step>)
    decreases |steps|
  {
    steps == [] || (Enabled(s, steps[0]) && IsRun(Apply(s, steps[0]), steps[1..]))
  }

  function Final(s: System, steps: seq<Step>): System
    requires IsRun(s, steps)
    decreases |steps|
  {
    if steps == [] then s else Final(Apply(s, steps[0]), steps[1..])
  }

  // ------------------------------------------------------------- invariants

  /** The first descriptor of the free suffix. */
  function Top(s: System): int {
    |s.table.desc| - s.table.numFree
  }

  /** The free list is the ascending suffix of the table. */
  ghost predicate SuffixFree(s: System) {
    && 0 <= Top(s)
    && Sound(s.table)
    && FreeList(s.table) == Range(Top(s), |s.table.desc|)
  }

  /** What stands in the table at `head` is the published chain, linked to the following descriptors. */
  ghost predicate ChainStands(desc: seq<Desc>, head: nat, ds: seq<Desc>, top: int) {
    && 0 < |ds| && head + |ds| <= top <= |desc|
    && desc[head..head + |ds|] == ds
    && (forall i :: 0 <= i < |ds| - 1 ==> ds[i].hasNext && ds[i].next == head + i + 1)
    && !ds[|ds| - 1].hasNext
  }

  ghost predicate ChainsStand(s: System) {
    forall h :: h in s.chains ==> ChainStands(s.table.desc, h, s.chains[h], Top(s))
  }

  ghost predicate ChainsApart(s: System) {
    forall h, g :: h in s.chains && g in s.chains && h < g ==> h + |s.chains[h]| <= g
  }

  ghost predicate Covers(s: System, h: nat, x: int) {
    h in s.chains && h <= x < h + |s.chains[h]|
  }

  ghost predicate Covered(s: System, x: int) {
    exists h :: Covers(s, h, x)
  }

  /** Below the free suffix every descriptor belongs to a chain. */
  ghost predicate ChainsCover(s: System) {
    forall x :: 0 <= x < Top(s) ==> Covered(s, x)
  }

  /** A chain is held by the device or completed, not both, and completed at most once. */
  ghost predicate DeviceSound(s: System) {
    && s.inFlight <= s.chains.Keys
    && (forall i :: 0 <= i < |s.used| ==> s.used[i] in s.chains && s.used[i] !in s.inFlight)
    && Distinct(s.used)
  }

  /** The request being polled is the topmost chain. */
  ghost predicate CurrentOnTop(s: System) {
    s.phase.Polling? ==> s.phase.head in s.chains && s.phase.head + |s.chains[s.phase.head]| == Top(s)
  }

  ghost predicate Inv(s: System) {
    && SuffixFree(s) && ChainsStand(s) && ChainsApart(s) && ChainsCover(s) && DeviceSound(s) && CurrentOnTop(s)
  }

  // -------------------------------------------------------------- submitting

  lemma {:induction false} FillWrites(desc: seq<Desc>, at: nat, ds: seq<Desc>)
    requires at + |ds| <= |desc|
    ensures Fill(desc, at, ds) == desc[..at] + ds + desc[at + |ds|..]
    decreases |ds|
  {
    if ds == [] {
      assert desc[..at] + ds + desc[at..] == desc;
    } else {
      FillWrites(desc[at := ds[0]], at + 1, ds[1..]);
      assert desc[at := ds[0]][..at + 1] == desc[..at] + [ds[0]];
      assert ds == [ds[0]] + ds[1..];
    }
  }

  /** Writing below the free list leaves it alone. */
  lemma FillKeepsFree(t: Table, desc: seq<Desc>, top: nat)
    requires Sound(t) && top <= |t.desc| && FreeList(t) == Range(top, |t.desc|)
    requires |desc| == |t.desc| && desc[top..] == t.desc[top..]
    ensures Sound(t.(desc := desc)) && FreeList(t.(desc := desc)) == FreeList(t)
  {
    forall x | x in FreeList(t) ensures desc[x].next == t.desc[x].next {
      assert desc[x] == desc[top..][x - top] && t.desc[x] == t.desc[top..][x - top];
    }
    WalkFrame(t.desc, desc, t.freeHead, t.numFree);
  }

  /**
    The allocated descriptors are exactly the head and the one or two after it,
    so addressing them by `head + 1` and `head + 2` stays within the chain just
    allocated.
   */
  lemma SubmitAddressesItsOwn(s: System, r: Request)
    requires SuffixFree(s) && s.table.numFree >= Length(r)
    ensures Alloc(s.table, Length(r)).1 == Some(Top(s))
    ensures FreeList(s.table)[..Length(r)] == Range(Top(s), Top(s) + Length(r))
    ensures var t := Alloc(s.table, Length(r)).0;
            Sound(t) && FreeList(t) == Range(Top(s) + Length(r), |t.desc|) && t.desc == s.table.desc
  {
    AllocTakesFront(s.table, Length(r));
    assert FreeList(s.table)[Length(r)..] == Range(Top(s) + Length(r), |s.table.desc|);
  }

  lemma SubmitShape(s: System, r: Request)
    requires SuffixFree(s) && s.table.numFree >= Length(r)
    ensures var s', head := Submitted(s, r), Top(s); var ds := Descriptors(r, head);
            && s'.table.desc == s.table.desc[..head] + ds + s.table.desc[head + |ds|..]
            && s'.table.numFree == s.table.numFree - |ds|
            && s' == System(s'.table, s.chains[head := ds], s.inFlight + {head}, s.used, Polling(head))
            && SuffixFree(s')
  {
    SubmitAddressesItsOwn(s, r);
    var t, head := Alloc(s.table, Length(r)).0, Top(s);
    var ds := Descriptors(r, head);
    FillWrites(t.desc, head, ds);
    var filled := Fill(t.desc, head, ds);
    assert filled[head + |ds|..] == t.desc[head + |ds|..];
    FillKeepsFree(t, filled, head + |ds|);
  }

  lemma ChainStillStands(desc: seq<Desc>, desc': seq<Desc>, h: nat, ds: seq<Desc>, top: int, top': int)
    requires ChainStands(desc, h, ds, top) && h + |ds| <= top' <= |desc'|
    requires desc'[h..h + |ds|] == desc[h..h + |ds|]
    ensures ChainStands(desc', h, ds, top')
  {
  }

  lemma NewChainStands(s: System, r: Request)
    requires SuffixFree(s) && s.table.numFree >= Length(r)
    ensures ChainStands(Submitted(s, r).table.desc, Top(s), Descriptors(r, Top(s)), Top(s) + Length(r))
  {
    SubmitShape(s, r);
    var ds := Descriptors(r, Top(s));
    assert Submitted(s, r).table.desc[Top(s)..Top(s) + |ds|] == ds;
  }

  lemma OldChainStands(s: System, r: Request, h: nat)
    requires SuffixFree(s) && s.table.numFree >= Length(r)
    requires h in s.chains && ChainStands(s.table.desc, h, s.chains[h], Top(s))
    ensures ChainStands(Submitted(s, r).table.desc, h, s.chains[h], Top(s) + Length(r))
  {
    SubmitShape(s, r);
    var desc', end := Submitted(s, r).table.desc, h + |s.chains[h]|;
    assert desc'[h..end] == s.table.desc[h..end];
    ChainStillStands(s.table.desc, desc', h, s.chains[h], Top(s), Top(s) + Length(r));
  }

  lemma SubmitKeepsChains(s: System, r: Request)
    requires Inv(s) && s.table.numFree >= Length(r)
    ensures ChainsStand(Submitted(s, r)) && CurrentOnTop(Submitted(s, r))
  {
    SubmitShape(s, r);
    NewChainStands(s, r);
    var s' := Submitted(s, r);
    forall h | h in s'.chains && h != Top(s) ensures ChainStands(s'.table.desc, h, s'.chains[h], Top(s')) {
      OldChainStands(s, r, h);
    }
  }

  lemma SubmitKeepsApart(s: System, r: Request)
    requires Inv(s) && s.table.numFree >= Length(r)
    ensures ChainsApart(Submitted(s, r))
  {
    SubmitShape(s, r);
    assert forall h :: h in s.chains ==> ChainStands(s.table.desc, h, s.chains[h], Top(s));
  }

  lemma SubmitKeepsCover(s: System, r: Request)
    requires Inv(s) && s.table.numFree >= Length(r)
    ensures ChainsCover(Submitted(s, r)) && DeviceSound(Submitted(s, r))
  {
    SubmitShape(s, r);
    var s', head := Submitted(s, r), Top(s);
    assert head !in s.chains by {
      assert forall h :: h in s.chains ==> ChainStands(s.table.desc, h, s.chains[h], Top(s));
    }
    forall x | 0 <= x < Top(s') ensures Covered(s', x) {
      if x < Top(s) {
        assert Covered(s, x);
        var h :| Covers(s, h, x);
        assert Covers(s', h, x);
      } else {
        assert Covers(s', head, x);
      }
    }
  }

  // ----------------------------------------------------------------- reaping

  /** A standing chain, read off the table, is a run of consecutive descriptors. */
  lemma StandingIsChain(desc: seq<Desc>, head: nat, ds: seq<Desc>, top: nat)
    requires ChainStands(desc, head, ds, top) && head + |ds| == top
    ensures IsChain(desc, Range(head, top)) && Distinct(Range(head, top))
  {
    forall i | 0 <= i < |ds| ensures desc[head + i] == ds[i] {
      assert desc[head..head + |ds|][i] == desc[head + i];
    }
  }

  lemma CurrentChain(s: System)
    requires Inv(s) && s.phase.Polling?
    ensures var head := s.phase.head; var chain := Range(head, Top(s));
            && IsChain(s.table.desc, chain) && Distinct(chain)
            && ChainFrom(s.table.desc, head, |s.table.desc|) == chain
            && (forall x :: x in chain ==> x !in FreeList(s.table))
  {
    var head, desc := s.phase.head, s.table.desc;
    assert ChainStands(desc, head, s.chains[head], Top(s));
    StandingIsChain(desc, head, s.chains[head], Top(s));
    ChainFound(desc, Range(head, Top(s)), |desc|);
  }

  /** Freeing the run just below a free suffix leaves a longer free suffix. */
  lemma FreeingExtendsSuffix(t: Table, head: nat, top: nat)
    requires Sound(t) && head < top <= |t.desc| && FreeList(t) == Range(top, |t.desc|)
    requires IsChain(t.desc, Range(head, top)) && Distinct(Range(head, top))
    ensures var t' := Free(t, Range(head, top));
            && Sound(t') && FreeList(t') == Range(head, |t.desc|)
            && t'.desc == t.desc[top - 1 := t'.desc[top - 1]] && t'.numFree == t.numFree + (top - head)
  {
    FreePutsFront(t, Range(head, top));
    assert Range(head, top) + Range(top, |t.desc|) == Range(head, |t.desc|);
  }

  lemma ReapShape(s: System)
    requires Inv(s) && Enabled(s, Reap) && s.used[0] == s.phase.head
    ensures var s', head := Reaped(s), s.phase.head;
            && s'.table.desc == s.table.desc[Top(s) - 1 := s'.table.desc[Top(s) - 1]]
            && Top(s') == head < Top(s)
            && SuffixFree(s')
  {
    CurrentChain(s);
    FreeingExtendsSuffix(s.table, s.phase.head, Top(s));
  }

  lemma OthersBelow(s: System, h: nat)
    requires Inv(s) && s.phase.Polling? && h in s.chains && h != s.phase.head
    ensures h + |s.chains[h]| <= s.phase.head
  {
  }

  lemma ReapKeepsChains(s: System)
    requires Inv(s) && Enabled(s, Reap) && s.used[0] == s.phase.head
    ensures ChainsStand(Reaped(s))
  {
    ReapShape(s);
    var s' := Reaped(s);
    forall h | h in s'.chains ensures ChainStands(s'.table.desc, h, s'.chains[h], Top(s')) {
      OthersBelow(s, h);
      var end := h + |s.chains[h]|;
      assert s'.table.desc[h..end] == s.table.desc[h..end];
      ChainStillStands(s.table.desc, s'.table.desc, h, s.chains[h], Top(s), Top(s'));
    }
  }

  lemma ReapKeepsCover(s: System)
    requires Inv(s) && Enabled(s, Reap) && s.used[0] == s.phase.head
    ensures ChainsCover(Reaped(s)) && DeviceSound(Reaped(s))
  {
    ReapShape(s);
    var s' := Reaped(s);
    forall x | 0 <= x < Top(s') ensures Covered(s', x) {
      assert Covered(s, x);
      var h :| Covers(s, h, x);
      assert Covers(s', h, x);
    }
    assert forall i :: 0 <= i < |s'.used| ==> s'.used[i] == s.used[i + 1];
  }

  lemma ReapMatchKeepsInv(s: System)
    requires Inv(s) && Enabled(s, Reap) && s.used[0] == s.phase.head
    ensures Inv(Reaped(s))
  {
    ReapShape(s);
    ReapKeepsChains(s);
    ReapKeepsCover(s);
  }

  /** Neither the table nor the chains move in the other steps. */
  lemma SameTableKeepsInv(s: System, s': System)
    requires Inv(s) && s'.table == s.table && s'.chains == s.chains
    requires DeviceSound(s') && (s'.phase == s.phase || s'.phase == Idle)
    ensures Inv(s')
  {
    forall x | 0 <= x < Top(s') ensures Covered(s', x) {
      assert Covered(s, x);
      var h :| Covers(s, h, x);
      assert Covers(s', h, x);
    }
  }

  lemma StepKeepsInv(s: System, step: Step)
    requires Inv(s) && Enabled(s, step)
    ensures Inv(Apply(s, step))
  {
    match step
    case Submit(r) =>
      SubmitShape(s, r);
      SubmitKeepsChains(s, r);
      SubmitKeepsApart(s, r);
      SubmitKeepsCover(s, r);
    case Refuse(r) =>
    case Complete(head) => SameTableKeepsInv(s, Apply(s, step));
    case TimeOut => SameTableKeepsInv(s, Apply(s, step));
    case Reap =>
      if s.used[0] == s.phase.head {
        ReapMatchKeepsInv(s);
      } else {
        assert forall i :: 0 <= i < |s.used[1..]| ==> s.used[1..][i] == s.used[i + 1];
        SameTableKeepsInv(s, Apply(s, step));
      }
  }

  lemma StartInv(size: nat)
    ensures Inv(Start(size))
  {
    NewTableSound(size);
  }

  lemma {:induction false} RunKeepsInv(s: System, steps: seq<Step>)
    requires Inv(s) && IsRun(s, steps)
    ensures Inv(Final(s, steps))
    ensures |Final(s, steps).table.desc| == |s.table.desc|
    decreases |steps|
  {
    if steps != [] {
      StepKeepsInv(s, steps[0]);
      RunKeepsInv(Apply(s, steps[0]), steps[1..]);
    }
  }

  // ----------------------------------------------------------- main results

  /**
    In every run, with any mix of success, timeout and mismatched completion, the
    free list is the ascending suffix of the table of length `numFree`.
   */
  lemma FreeListIsSuffix(size: nat, steps: seq<Step>)
    requires IsRun(Start(size), steps)
    ensures var s := Final(Start(size), steps);
            && s.table.numFree <= size
            && FreeList(s.table) == Range(size - s.table.numFree, size)
  {
    StartInv(size);
    RunKeepsInv(Start(size), steps);
  }

  /**
    Descriptor ownership: in every run, no descriptor of a chain the device still
    holds is on the free list, and the table still shows that chain as published.
   */
  lemma DeviceKeepsItsChains(size: nat, steps: seq<Step>, h: nat)
    requires IsRun(Start(size), steps) && h in Final(Start(size), steps).inFlight
    ensures var s := Final(Start(size), steps);
            && h in s.chains && h + |s.chains[h]| <= size == |s.table.desc|
            && s.table.desc[h..h + |s.chains[h]|] == s.chains[h]
            && (forall x :: h <= x < h + |s.chains[h]| ==> x !in FreeList(s.table))
  {
    StartInv(size);
    RunKeepsInv(Start(size), steps);
    var s := Final(Start(size), steps);
    assert ChainStands(s.table.desc, h, s.chains[h], Top(s));
  }

  /** Some chain other than the one being polled has not been given back. */
  ghost predicate Leaked(s: System) {
    exists h :: h in s.chains && s.phase != Polling(h)
  }

  lemma StepLeaks(s: System, step: Step)
    requires Inv(s) && Enabled(s, step)
    ensures Leaked(Apply(s, step)) <==> Leaked(s) || step == TimeOut
  {
    var s' := Apply(s, step);
    match step
    case Submit(r) => SubmitShape(s, r);
      assert forall h :: h in s.chains ==> ChainStands(s.table.desc, h, s.chains[h], Top(s));
      assert forall h :: h in s.chains ==> h in s'.chains && s'.phase != Polling(h);
    case Refuse(r) =>
    case Complete(head) =>
      assert forall h :: h in s.chains && s.phase != Polling(h) ==> h in s'.chains && s'.phase != Polling(h);
    case TimeOut =>
      assert s.phase.head in s'.chains && s'.phase != Polling(s.phase.head);
    case Reap =>
      if s.used[0] != s.phase.head {
        assert s.used[0] in s.chains && s.phase != Polling(s.used[0]);
        assert s.used[0] in s'.chains && s'.phase != Polling(s.used[0]);
      } else {
        assert forall h :: h in s.chains && h != s.phase.head ==> h in s'.chains && s'.phase != Polling(h);
      }
  }

  lemma {:induction false} RunLeaks(s: System, steps: seq<Step>)
    requires Inv(s) && IsRun(s, steps)
    ensures Leaked(Final(s, steps)) <==> Leaked(s) || TimeOut in steps
    decreases |steps|
  {
    if steps != [] {
      StepLeaks(s, steps[0]);
      StepKeepsInv(s, steps[0]);
      RunLeaks(Apply(s, steps[0]), steps[1..]);
    }
  }

  /**
    Between requests the whole table is free again exactly when no request so far
    has timed out: a mismatched completion can only follow a timeout, and what a
    timeout abandons never comes back.
   */
  lemma TableIsWholeIffNoTimeOut(size: nat, steps: seq<Step>)
    requires IsRun(Start(size), steps) && Final(Start(size), steps).phase == Idle
    ensures Final(Start(size), steps).table.numFree == size <==> TimeOut !in steps
  {
    StartInv(size);
    RunKeepsInv(Start(size), steps);
    RunLeaks(Start(size), steps);
    var s := Final(Start(size), steps);
    forall h | h in s.chains ensures Top(s) > 0 {
      assert ChainStands(s.table.desc, h, s.chains[h], Top(s));
    }
    if Top(s) > 0 {
      assert Covered(s, 0);
    }
  }

  /** One timed-out flush on a table of two leaves no descriptor to allocate. */
  lemma TimedOutFlushLeaks()
    ensures var steps := [Submit(Flush(0, 0)), TimeOut];
            IsRun(Start(2), steps) && Final(Start(2), steps).phase == Idle && Final(Start(2), steps).table.numFree == 0
  {
    var steps := [Submit(Flush(0, 0)), TimeOut];
    var s := Submitted(Start(2), Flush(0, 0));
    assert steps[1..] == [TimeOut] && [TimeOut][1..] == [];
    assert IsRun(s, [TimeOut]) && Final(s, [TimeOut]) == Apply(s, TimeOut);
  }
}
