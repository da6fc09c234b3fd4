/** Per-device logs of versioned objects: merging replicas and keeping the latest version. */
module SyncState {
  import opened Common

  datatype DeviceId = DeviceId(uuid: nat)

  datatype ObjectId = ObjectId(uuid: nat)

  datatype Entry = Entry(objectId: ObjectId, version: nat, payload: seq<byte>, timestampNs: nat)

  datatype DeviceLog = DeviceLog(device: DeviceId, entries: seq<Entry>)

  type Logs = seq<DeviceLog>

  /** All entries, log after log. */
  function All(logs: Logs): seq<Entry> {
    if logs == [] then [] else logs[0].entries + All(logs[1..])
  }

  function Devices(logs: Logs): set<DeviceId> {
    set log <- logs :: log.device
  }

  /** The entries of one device, in order. */
  function Gather(logs: Logs, d: DeviceId): seq<Entry> {
    if logs == [] then []
    else if logs[0].device == d then logs[0].entries + Gather(logs[1..], d)
    else Gather(logs[1..], d)
  }

  // ---------------------------------------------------------------- merging

  /** One log per device, holding what the device has on either side, in whatever order of devices. */
  ghost predicate IsMerge(a: Logs, b: Logs, m: Logs) {
    IsGathered(a + b, m)
  }

  function Without(logs: Logs, d: DeviceId): Logs {
    if logs == [] then []
    else if logs[0].device == d then Without(logs[1..], d)
    else [logs[0]] + Without(logs[1..], d)
  }

  /** Taking one device out of the logs splits off exactly its entries ... */
  lemma {:induction false} GatherSplits(logs: Logs, d: DeviceId)
    ensures multiset(All(logs)) == multiset(Gather(logs, d)) + multiset(All(Without(logs, d)))
    decreases |logs|
  {
    if logs != [] {
      var head, tail := logs[0].entries, logs[1..];
      GatherSplits(tail, d);
      assert multiset(All(logs)) == multiset(head) + multiset(All(tail));
      if logs[0].device == d {
        assert multiset(Gather(logs, d)) == multiset(head) + multiset(Gather(tail, d));
      } else {
        AllCons(logs[0], Without(tail, d));
        assert multiset(All(Without(logs, d))) == multiset(head) + multiset(All(Without(tail, d)));
      }
    }
  }

  lemma AllCons(log: DeviceLog, logs: Logs)
    ensures All([log] + logs) == log.entries + All(logs)
  {
  }

  /** ... and leaves every other device's in place. */
  lemma {:induction false} WithoutKeepsOthers(logs: Logs, d: DeviceId, x: DeviceId)
    requires x != d
    ensures Gather(Without(logs, d), x) == Gather(logs, x)
    decreases |logs|
  {
    if logs != [] {
      WithoutKeepsOthers(logs[1..], d, x);
      var rest := Without(logs[1..], d);
      if logs[0].device != d {
        assert ([logs[0]] + rest)[1..] == rest;
      }
    }
  }

  lemma {:induction false} WithoutDevices(logs: Logs, d: DeviceId)
    ensures Devices(Without(logs, d)) == Devices(logs) - {d}
    decreases |logs|
  {
    if logs != [] {
      WithoutDevices(logs[1..], d);
      var rest := Without(logs[1..], d);
      assert Devices(logs) == {logs[0].device} + Devices(logs[1..]);
      assert Devices([logs[0]] + rest) == {logs[0].device} + Devices(rest);
    }
  }

  /** One log per device of `logs`, holding what `logs` has for it. */
  ghost predicate IsGathered(logs: Logs, m: Logs) {
    && (forall i, j :: 0 <= i < j < |m| ==> m[i].device != m[j].device)
    && Devices(m) == Devices(logs)
    && (forall i :: 0 <= i < |m| ==> m[i].entries == Gather(logs, m[i].device))
  }

  lemma GatheredTail(logs: Logs, m: Logs)
    requires IsGathered(logs, m) && m != []
    ensures IsGathered(Without(logs, m[0].device), m[1..])
  {
    var d, tail := m[0].device, m[1..];
    WithoutDevices(logs, d);
    assert m == [m[0]] + tail;
    assert Devices(m) == {d} + Devices(tail) && d !in Devices(tail);
    forall i | 0 <= i < |tail| ensures tail[i].entries == Gather(Without(logs, d), tail[i].device) {
      WithoutKeepsOthers(logs, d, tail[i].device);
    }
  }

  lemma SomeDevice(logs: Logs)
    ensures logs != [] ==> Devices(logs) != {}
  {
    if logs != [] {
      assert logs[0].device in Devices(logs);
    }
  }

  lemma {:induction false} GatheredAll(logs: Logs, m: Logs)
    requires IsGathered(logs, m)
    ensures multiset(All(m)) == multiset(All(logs))
    decreases |m|
  {
    if m == [] {
      SomeDevice(logs);
    } else {
      GatherSplits(logs, m[0].device);
      GatheredTail(logs, m);
      GatheredAll(Without(logs, m[0].device), m[1..]);
      assert multiset(All(m)) == multiset(m[0].entries) + multiset(All(m[1..]));
    }
  }

  lemma {:induction false} AllJoined(a: Logs, b: Logs)
    ensures All(a + b) == All(a) + All(b)
    decreases |a|
  {
    if a == [] {
      assert a + b == b;
    } else {
      AllJoined(a[1..], b);
      assert (a + b)[1..] == a[1..] + b;
    }
  }

  lemma DevicesJoined(a: Logs, b: Logs)
    ensures Devices(a + b) == Devices(a) + Devices(b)
  {
  }

  /** Merging loses and invents nothing. */
  lemma MergeKeepsEntries(a: Logs, b: Logs, m: Logs)
    requires IsMerge(a, b, m)
    ensures multiset(All(m)) == multiset(All(a)) + multiset(All(b))
  {
    AllJoined(a, b);
    GatheredAll(a + b, m);
  }

  lemma {:induction false} GatherJoined(a: Logs, b: Logs, d: DeviceId)
    ensures Gather(a + b, d) == Gather(a, d) + Gather(b, d)
    decreases |a|
  {
    if a == [] {
      assert a + b == b;
    } else {
      GatherJoined(a[1..], b, d);
      assert (a + b)[1..] == a[1..] + b;
    }
  }

  lemma GatherNext(logs: Logs, i: nat, d: DeviceId)
    requires i < |logs|
    ensures Gather(logs[..i + 1], d) == Gather(logs[..i], d) + if logs[i].device == d then logs[i].entries else []
  {
    assert logs[..i + 1] == logs[..i] + [logs[i]];
    GatherJoined(logs[..i], [logs[i]], d);
    assert [logs[i]][1..] == [];
  }

  lemma {:induction false} GatherAbsent(logs: Logs, d: DeviceId)
    requires d !in Devices(logs)
    ensures Gather(logs, d) == []
    decreases |logs|
  {
    if logs != [] {
      assert logs[0].device in Devices(logs);
      assert Devices(logs[1..]) <= Devices(logs);
      GatherAbsent(logs[1..], d);
    }
  }

  // ------------------------------------------------------------- compacting

  /** An entry replaces what is held of its object unless its timestamp is smaller. */
  function Taken(latest: map<ObjectId, Entry>, e: Entry): map<ObjectId, Entry> {
    if e.objectId in latest && e.timestampNs < latest[e.objectId].timestampNs then latest else latest[e.objectId := e]
  }

  /** The entries taken one after another. */
  function Latest(es: seq<Entry>): map<ObjectId, Entry> {
    if es == [] then map[] else Taken(Latest(es[..|es| - 1]), es[|es| - 1])
  }

  /** The entry is among `es` and none of its object is later. */
  ghost predicate IsTop(es: seq<Entry>, e: Entry) {
    e in es && forall f :: f in es && f.objectId == e.objectId ==> f.timestampNs <= e.timestampNs
  }

  /** Per object at most one entry has the largest timestamp. */
  ghost predicate TopsAgree(es: seq<Entry>) {
    forall e, f :: IsTop(es, e) && IsTop(es, f) && e.objectId == f.objectId ==> e == f
  }

  ghost predicate SameEntries(es: seq<Entry>, fs: seq<Entry>) {
    forall e :: e in es <==> e in fs
  }

  /** Compaction keeps, for exactly the objects present, an entry none is later than. */
  lemma {:induction false} LatestIsTop(es: seq<Entry>)
    ensures forall o :: o in Latest(es) ==> Latest(es)[o].objectId == o && IsTop(es, Latest(es)[o])
    ensures forall e :: e in es ==> e.objectId in Latest(es)
    decreases |es|
  {
    if es != [] {
      var front, last := es[..|es| - 1], es[|es| - 1];
      LatestIsTop(front);
      assert es == front + [last];
    }
  }

  function Objects(es: seq<Entry>): set<ObjectId> {
    set e <- es :: e.objectId
  }

  lemma LatestKeys(es: seq<Entry>)
    ensures Latest(es).Keys == Objects(es)
  {
    LatestIsTop(es);
    forall o | o in Latest(es) ensures o in Objects(es) {
      assert Latest(es)[o] in es;
    }
  }

  /** When tops agree, the result depends only on which entries there are. */
  lemma SameEntriesSameLatest(es: seq<Entry>, fs: seq<Entry>)
    requires SameEntries(es, fs) && TopsAgree(es)
    ensures Latest(es) == Latest(fs)
  {
    LatestIsTop(es);
    LatestIsTop(fs);
    forall o | o in Latest(es) ensures o in Latest(fs) && Latest(fs)[o] == Latest(es)[o] {
      assert IsTop(fs, Latest(fs)[o]);
      assert IsTop(es, Latest(fs)[o]);
    }
    forall o | o in Latest(fs) ensures o in Latest(es) {
      assert Latest(fs)[o] in es;
    }
  }

  lemma LastTopWins(es: seq<Entry>, e: Entry)
    requires IsTop(es + [e], e)
    ensures e.objectId in Latest(es + [e]) && Latest(es + [e])[e.objectId] == e
  {
    LatestIsTop(es);
    assert (es + [e])[..|es|] == es;
    if e.objectId in Latest(es) {
      assert Latest(es)[e.objectId] in es + [e];
    }
  }

  /** An order of the same entries that puts a given one last. */
  lemma MoveToEnd(es: seq<Entry>, e: Entry) returns (rest: seq<Entry>)
    requires e in es
    ensures multiset(rest + [e]) == multiset(es)
  {
    var i :| 0 <= i < |es| && es[i] == e;
    rest := es[..i] + es[i + 1..];
    assert es == es[..i] + [e] + es[i + 1..];
  }

  lemma PermutedSameEntries(es: seq<Entry>, fs: seq<Entry>)
    requires multiset(es) == multiset(fs)
    ensures SameEntries(es, fs)
  {
    forall e ensures e in es <==> e in fs {
      assert e in es <==> e in multiset(es);
    }
  }

  lemma TopMoves(es: seq<Entry>, fs: seq<Entry>, e: Entry)
    requires SameEntries(es, fs) && IsTop(es, e)
    ensures IsTop(fs, e)
  {
  }

  /** Two different tops can each be made to win by ordering the entries. */
  lemma DisagreeingTops(es: seq<Entry>, e: Entry, f: Entry) returns (xs: seq<Entry>, ys: seq<Entry>)
    requires IsTop(es, e) && IsTop(es, f) && e.objectId == f.objectId && e != f
    ensures multiset(xs) == multiset(es) && multiset(ys) == multiset(es) && Latest(xs) != Latest(ys)
  {
    var restE := MoveToEnd(es, e);
    var restF := MoveToEnd(es, f);
    xs, ys := restE + [e], restF + [f];
    PermutedSameEntries(es, xs);
    PermutedSameEntries(es, ys);
    TopMoves(es, xs, e);
    TopMoves(es, ys, f);
    LastTopWins(restE, e);
    LastTopWins(restF, f);
  }

  // ---------------------------------------------------- compacting a state

  function Compact(logs: Logs): map<ObjectId, Entry> {
    Latest(All(logs))
  }

  /** Per object the later of two versions. */
  function Later(a: map<ObjectId, Entry>, b: map<ObjectId, Entry>): map<ObjectId, Entry> {
    map o | o in a.Keys + b.Keys ::
      if o !in a then b[o] else if o !in b then a[o] else if a[o].timestampNs <= b[o].timestampNs then b[o] else a[o]
  }

  /** No other arrangement of the same entries in logs compacts differently. */
  ghost predicate OrderFree(logs: Logs) {
    forall other :: multiset(All(other)) == multiset(All(logs)) ==> Compact(other) == Compact(logs)
  }

  lemma OneLog(es: seq<Entry>)
    ensures All([DeviceLog(DeviceId(0), es)]) == es
  {
    assert [DeviceLog(DeviceId(0), es)][1..] == [];
  }

  /** States with the same entries compact alike exactly when per object the largest timestamp is unique. */
  lemma OrderFreeIffTopsAgree(logs: Logs)
    ensures OrderFree(logs) <==> TopsAgree(All(logs))
  {
    var es := All(logs);
    if TopsAgree(es) {
      forall other | multiset(All(other)) == multiset(es) ensures Compact(other) == Compact(logs) {
        PermutedSameEntries(es, All(other));
        SameEntriesSameLatest(es, All(other));
      }
    } else {
      var e, f :| IsTop(es, e) && IsTop(es, f) && e.objectId == f.objectId && e != f;
      var xs, ys := DisagreeingTops(es, e, f);
      OneLog(xs);
      OneLog(ys);
      assert Compact([DeviceLog(DeviceId(0), xs)]) != Compact([DeviceLog(DeviceId(0), ys)]);
    }
  }

  lemma LaterTaken(a: map<ObjectId, Entry>, b: map<ObjectId, Entry>, e: Entry)
    ensures Later(a, Taken(b, e)) == Taken(Later(a, b), e)
  {
  }

  /** Compacting one sequence after another takes the later of their results. */
  lemma {:induction false} LatestJoined(x: seq<Entry>, y: seq<Entry>)
    ensures Latest(x + y) == Later(Latest(x), Latest(y))
    decreases |y|
  {
    if y == [] {
      assert x + y == x;
    } else {
      var front, last := y[..|y| - 1], y[|y| - 1];
      LatestJoined(x, front);
      assert (x + y)[..|x + y| - 1] == x + front;
      LaterTaken(Latest(x), Latest(front), last);
    }
  }

  /** The entry the device's own log would compact to, when no entry of its object anywhere is later. */
  ghost predicate WinsAt(logs: Logs, d: DeviceId, e: Entry) {
    var latest := Latest(Gather(logs, d));
    e.objectId in latest && latest[e.objectId] == e && IsTop(All(logs), e)
  }

  ghost predicate Wins(logs: Logs, e: Entry) {
    exists d :: d in Devices(logs) && WinsAt(logs, d, e)
  }

  /** The map holds, for exactly the objects of `logs`, every entry that wins for some device. */
  ghost predicate HoldsWinners(logs: Logs, latest: map<ObjectId, Entry>) {
    && latest.Keys == Objects(All(logs))
    && (forall e :: Wins(logs, e) ==> e.objectId in latest && latest[e.objectId] == e)
  }

  /** What a sequence of logs compacts to per object is what one of its logs compacts to. */
  lemma {:induction false} CompactFromLog(m: Logs, o: ObjectId)
    requires o in Compact(m)
    ensures exists i :: 0 <= i < |m| && o in Latest(m[i].entries) && Latest(m[i].entries)[o] == Compact(m)[o]
    decreases |m|
  {
    var head, tail := m[0].entries, m[1..];
    LatestJoined(head, All(tail));
    if o in Compact(tail) && Compact(tail)[o] == Compact(m)[o] {
      CompactFromLog(tail, o);
      var i :| 0 <= i < |tail| && o in Latest(tail[i].entries) && Latest(tail[i].entries)[o] == Compact(tail)[o];
      assert m[i + 1] == tail[i];
    }
  }

  lemma GatheredHas(logs: Logs, m: Logs)
    requires IsGathered(logs, m)
    ensures SameEntries(All(logs), All(m)) && Compact(m).Keys == Objects(All(logs))
  {
    GatheredAll(logs, m);
    PermutedSameEntries(All(logs), All(m));
    LatestKeys(All(m));
  }

  /** Whatever the order of devices, what is kept wins for some device. */
  lemma CompactWins(logs: Logs, m: Logs, o: ObjectId)
    requires IsGathered(logs, m) && o in Compact(m)
    ensures Compact(m)[o].objectId == o && Wins(logs, Compact(m)[o])
  {
    var e := Compact(m)[o];
    GatheredHas(logs, m);
    LatestIsTop(All(m));
    TopMoves(All(m), All(logs), e);
    CompactFromLog(m, o);
    var i :| 0 <= i < |m| && o in Latest(m[i].entries) && Latest(m[i].entries)[o] == e;
    assert m[i].device in Devices(logs) by {
      assert m[i].device in Devices(m);
    }
    assert WinsAt(logs, m[i].device, e);
  }

  /** The logs of the devices in `ds`, in some order. */
  lemma {:induction false} Arranged(logs: Logs, ds: set<DeviceId>) returns (m: Logs)
    ensures Devices(m) == ds
    ensures forall i, j :: 0 <= i < j < |m| ==> m[i].device != m[j].device
    ensures forall i :: 0 <= i < |m| ==> m[i].entries == Gather(logs, m[i].device)
    decreases ds
  {
    if ds == {} {
      m := [];
    } else {
      var d :| d in ds;
      var rest := Arranged(logs, ds - {d});
      m := [DeviceLog(d, Gather(logs, d))] + rest;
      DevicesJoined([DeviceLog(d, Gather(logs, d))], rest);
      assert forall i :: 0 <= i < |rest| ==> rest[i].device in Devices(rest);
      assert [DeviceLog(d, Gather(logs, d))][0].device == d;
    }
  }

  /** Some order of devices puts a given one last. */
  lemma ArrangedLast(logs: Logs, d: DeviceId) returns (front: Logs, m: Logs)
    requires d in Devices(logs)
    ensures m == front + [DeviceLog(d, Gather(logs, d))] && IsGathered(logs, m)
  {
    front := Arranged(logs, Devices(logs) - {d});
    var last := DeviceLog(d, Gather(logs, d));
    m := front + [last];
    DevicesJoined(front, [last]);
    assert [last][0].device == d;
    assert forall i :: 0 <= i < |front| ==> front[i].device in Devices(front);
  }

  lemma LastLogDecides(x: seq<Entry>, own: seq<Entry>, e: Entry)
    requires e.objectId in Latest(own) && Latest(own)[e.objectId] == e && IsTop(x + own, e)
    ensures e.objectId in Latest(x + own) && Latest(x + own)[e.objectId] == e
  {
    LatestJoined(x, own);
    LatestIsTop(x);
    if e.objectId in Latest(x) {
      assert Latest(x)[e.objectId] in x + own;
    }
  }

  /** Every winner is kept under some order of devices. */
  lemma WinnerCanBeKept(logs: Logs, e: Entry) returns (m: Logs)
    requires Wins(logs, e)
    ensures IsGathered(logs, m) && e.objectId in Compact(m) && Compact(m)[e.objectId] == e
  {
    var d :| d in Devices(logs) && WinsAt(logs, d, e);
    var front;
    front, m := ArrangedLast(logs, d);
    var own := Gather(logs, d);
    AllJoined(front, [DeviceLog(d, own)]);
    assert All(m) == All(front) + own;
    GatheredHas(logs, m);
    TopMoves(All(logs), All(m), e);
    LastLogDecides(All(front), own, e);
  }

  lemma KeepsWinners(logs: Logs, m: Logs, latest: map<ObjectId, Entry>)
    requires IsGathered(logs, m) && HoldsWinners(logs, latest)
    ensures Compact(m) == latest
  {
    GatheredHas(logs, m);
    forall o | o in Compact(m) ensures o in latest && latest[o] == Compact(m)[o] {
      CompactWins(logs, m, o);
    }
  }

  /** All orders of devices compact to one map exactly when it holds every winner. */
  lemma CompactsToIff(logs: Logs, latest: map<ObjectId, Entry>)
    ensures (forall m :: IsGathered(logs, m) ==> Compact(m) == latest) <==> HoldsWinners(logs, latest)
  {
    if HoldsWinners(logs, latest) {
      forall m | IsGathered(logs, m) ensures Compact(m) == latest {
        KeepsWinners(logs, m, latest);
      }
    }
    if forall m :: IsGathered(logs, m) ==> Compact(m) == latest {
      var m := Arranged(logs, Devices(logs));
      GatheredHas(logs, m);
      forall e | Wins(logs, e) ensures e.objectId in latest && latest[e.objectId] == e {
        var n := WinnerCanBeKept(logs, e);
      }
    }
  }

  // ------------------------------------------------------------ convergence

  /** Of the entries of one object that win under `x` or under `y` there is one only. */
  ghost predicate OneWinner(x: Logs, y: Logs) {
    forall e, f :: (Wins(x, e) || Wins(y, e)) && (Wins(x, f) || Wins(y, f)) && e.objectId == f.objectId ==> e == f
  }

  /** Merging either way round, under any order of devices, compacts to the same map. */
  ghost predicate Commutes(a: Logs, b: Logs) {
    forall ab, ba :: IsMerge(a, b, ab) && IsMerge(b, a, ba) ==> Compact(ab) == Compact(ba)
  }

  lemma JoinedEitherWay(a: Logs, b: Logs)
    ensures Objects(All(a + b)) == Objects(All(b + a))
  {
    AllJoined(a, b);
    AllJoined(b, a);
  }

  lemma OneWinnerCommutes(a: Logs, b: Logs)
    requires OneWinner(a + b, b + a)
    ensures Commutes(a, b)
  {
    JoinedEitherWay(a, b);
    forall ab, ba | IsMerge(a, b, ab) && IsMerge(b, a, ba) ensures Compact(ab) == Compact(ba) {
      GatheredHas(a + b, ab);
      GatheredHas(b + a, ba);
      forall o | o in Compact(ab) ensures Compact(ab)[o] == Compact(ba)[o] {
        CompactWins(a + b, ab, o);
        CompactWins(b + a, ba, o);
      }
    }
  }

  lemma CommutesOneWinner(a: Logs, b: Logs)
    requires Commutes(a, b)
    ensures OneWinner(a + b, b + a)
  {
    var ba := Arranged(b + a, Devices(b + a));
    var ab := Arranged(a + b, Devices(a + b));
    CompactsToIff(a + b, Compact(ba));
    CompactsToIff(b + a, Compact(ab));
    assert Compact(ab) == Compact(ba);
  }

  /**
    The order of merging does not matter exactly when, per object, every device whose
    log can decide it decides for the same entry, whichever side comes first.
   */
  lemma MergeCommutesIff(a: Logs, b: Logs)
    ensures Commutes(a, b) <==> OneWinner(a + b, b + a)
  {
    if OneWinner(a + b, b + a) {
      OneWinnerCommutes(a, b);
    }
    if Commutes(a, b) {
      CommutesOneWinner(a, b);
    }
  }

  /** One and the same gathering compacts alike under all orders of devices. */
  ghost predicate DeviceOrderFree(logs: Logs) {
    forall m, n :: IsGathered(logs, m) && IsGathered(logs, n) ==> Compact(m) == Compact(n)
  }

  /** The order of devices does not matter exactly when each object has one winner. */
  lemma DeviceOrderFreeIff(logs: Logs)
    ensures DeviceOrderFree(logs) <==> OneWinner(logs, logs)
  {
    if OneWinner(logs, logs) {
      forall m, n | IsGathered(logs, m) && IsGathered(logs, n) ensures Compact(m) == Compact(n) {
        GatheredHas(logs, m);
        GatheredHas(logs, n);
        forall o | o in Compact(m) ensures Compact(m)[o] == Compact(n)[o] {
          CompactWins(logs, m, o);
          CompactWins(logs, n, o);
        }
      }
    }
    if DeviceOrderFree(logs) {
      var n := Arranged(logs, Devices(logs));
      CompactsToIff(logs, Compact(n));
    }
  }

  /** Grouping does not matter, whatever the orders of devices on the way. */
  ghost predicate Associates(a: Logs, b: Logs, c: Logs) {
    forall ab, bc, m, n ::
      IsMerge(a, b, ab) && IsMerge(ab, c, m) && IsMerge(b, c, bc) && IsMerge(a, bc, n) ==> Compact(m) == Compact(n)
  }

  /** Gathered logs stand for the logs they were gathered from. */
  lemma GatheredGathers(logs: Logs, m: Logs, d: DeviceId)
    requires IsGathered(logs, m)
    ensures Gather(m, d) == Gather(logs, d)
  {
    if d in Devices(m) {
      var i :| 0 <= i < |m| && m[i].device == d;
      GatherOne(m, i);
    } else {
      GatherAbsent(m, d);
      GatherAbsent(logs, d);
    }
  }

  lemma GatherOne(m: Logs, i: nat)
    requires i < |m| && forall j, k :: 0 <= j < k < |m| ==> m[j].device != m[k].device
    ensures Gather(m, m[i].device) == m[i].entries
  {
    var d, rest := m[i].device, m[i + 1..];
    assert m == m[..i] + ([m[i]] + rest);
    GatherJoined(m[..i], [m[i]] + rest, d);
    GatherAbsent(m[..i], d);
    GatherAbsent(rest, d);
    assert ([m[i]] + rest)[1..] == rest;
  }

  lemma MergeOfMerge(a: Logs, b: Logs, c: Logs, ab: Logs, m: Logs)
    requires IsMerge(a, b, ab)
    ensures IsMerge(ab, c, m) <==> IsGathered(a + b + c, m)
  {
    DevicesJoined(ab, c);
    DevicesJoined(a + b, c);
    forall i | 0 <= i < |m| ensures Gather(ab + c, m[i].device) == Gather(a + b + c, m[i].device) {
      GatheredGathers(a + b, ab, m[i].device);
      GatherJoined(ab, c, m[i].device);
      GatherJoined(a + b, c, m[i].device);
    }
  }

  lemma MergeWithMerge(a: Logs, b: Logs, c: Logs, bc: Logs, n: Logs)
    requires IsMerge(b, c, bc)
    ensures IsMerge(a, bc, n) <==> IsGathered(a + b + c, n)
  {
    assert a + b + c == a + (b + c);
    DevicesJoined(a, bc);
    DevicesJoined(a, b + c);
    forall i | 0 <= i < |n| ensures Gather(a + bc, n[i].device) == Gather(a + b + c, n[i].device) {
      GatheredGathers(b + c, bc, n[i].device);
      GatherJoined(a, bc, n[i].device);
      GatherJoined(a, b + c, n[i].device);
    }
  }

  lemma OrderFreeAssociates(a: Logs, b: Logs, c: Logs)
    requires DeviceOrderFree(a + b + c)
    ensures Associates(a, b, c)
  {
    forall ab, bc, m, n | IsMerge(a, b, ab) && IsMerge(ab, c, m) && IsMerge(b, c, bc) && IsMerge(a, bc, n)
      ensures Compact(m) == Compact(n)
    {
      MergeOfMerge(a, b, c, ab, m);
      MergeWithMerge(a, b, c, bc, n);
    }
  }

  lemma AssociatesOrderFree(a: Logs, b: Logs, c: Logs)
    requires Associates(a, b, c)
    ensures DeviceOrderFree(a + b + c)
  {
    var ab := Arranged(a + b, Devices(a + b));
    var bc := Arranged(b + c, Devices(b + c));
    assert IsMerge(a, b, ab) && IsMerge(b, c, bc);
    forall m, n | IsGathered(a + b + c, m) && IsGathered(a + b + c, n) ensures Compact(m) == Compact(n) {
      MergeOfMerge(a, b, c, ab, m);
      MergeWithMerge(a, b, c, bc, n);
    }
  }

  /** The grouping of three states does not matter exactly when each object has one winner among them. */
  lemma MergeAssociatesIff(a: Logs, b: Logs, c: Logs)
    ensures Associates(a, b, c) <==> OneWinner(a + b + c, a + b + c)
  {
    DeviceOrderFreeIff(a + b + c);
    if DeviceOrderFree(a + b + c) {
      OrderFreeAssociates(a, b, c);
    }
    if Associates(a, b, c) {
      AssociatesOrderFree(a, b, c);
    }
  }

  lemma TwiceWins(a: Logs, e: Entry)
    ensures Wins(a + a, e) <==> Wins(a, e)
  {
    AllJoined(a, a);
    DevicesJoined(a, a);
    forall d ensures WinsAt(a + a, d, e) <==> WinsAt(a, d, e) {
      GatherJoined(a, a, d);
      LatestJoined(Gather(a, d), Gather(a, d));
      assert IsTop(All(a + a), e) <==> IsTop(All(a), e);
    }
  }

  /** Merging a state with itself changes nothing exactly when the state already keeps every winner. */
  lemma MergeIdempotentIff(a: Logs)
    ensures (forall aa :: IsMerge(a, a, aa) ==> Compact(aa) == Compact(a)) <==> HoldsWinners(a, Compact(a))
  {
    CompactsToIff(a + a, Compact(a));
    AllJoined(a, a);
    LatestKeys(All(a));
    forall e ensures Wins(a + a, e) <==> Wins(a, e) {
      TwiceWins(a, e);
    }
  }

  /** The compacted merge is the per-object later of the compacted states exactly when that keeps every winner. */
  lemma MergeTakesLaterIff(a: Logs, b: Logs)
    ensures (forall m :: IsMerge(a, b, m) ==> Compact(m) == Later(Compact(a), Compact(b))) <==>
            HoldsWinners(a + b, Later(Compact(a), Compact(b)))
  {
    CompactsToIff(a + b, Later(Compact(a), Compact(b)));
  }

  // ------------------------------------- convergence under distinct timestamps

  /** Where the largest timestamp of an object is unique, it has one winner. */
  lemma TopsGiveOneWinner(x: Logs, y: Logs)
    requires TopsAgree(All(x)) && SameEntries(All(x), All(y))
    ensures OneWinner(x, y)
  {
    forall e | Wins(x, e) || Wins(y, e) ensures IsTop(All(x), e) {
      if Wins(y, e) {
        TopMoves(All(y), All(x), e);
      }
    }
  }

  /** ... and the logs compacted one after another hold it. */
  lemma TopsHeld(logs: Logs)
    requires TopsAgree(All(logs))
    ensures HoldsWinners(logs, Compact(logs))
  {
    LatestIsTop(All(logs));
    LatestKeys(All(logs));
    forall e | Wins(logs, e) ensures e.objectId in Compact(logs) && Compact(logs)[e.objectId] == e {
      assert IsTop(All(logs), e) && IsTop(All(logs), Compact(logs)[e.objectId]);
    }
  }

  lemma MergeTops(a: Logs, b: Logs, ab: Logs)
    requires IsMerge(a, b, ab) && TopsAgree(All(ab))
    ensures TopsAgree(All(a + b)) && SameEntries(All(a + b), All(b + a))
  {
    GatheredTops(a + b, ab);
    AllJoined(a, b);
    AllJoined(b, a);
  }

  /**
    Merge convergence: when per object the largest timestamp is unique, compacting
    does not depend on the order of merging, ...
   */
  lemma MergeCommutes(a: Logs, b: Logs, ab: Logs, ba: Logs)
    requires IsMerge(a, b, ab) && IsMerge(b, a, ba) && TopsAgree(All(ab))
    ensures Compact(ab) == Compact(ba)
  {
    MergeTops(a, b, ab);
    TopsGiveOneWinner(a + b, b + a);
    MergeCommutesIff(a, b);
  }

  /** ... nor on the grouping, ... */
  lemma MergeAssociates(a: Logs, b: Logs, c: Logs, ab: Logs, bc: Logs, abThenC: Logs, aThenBc: Logs)
    requires IsMerge(a, b, ab) && IsMerge(ab, c, abThenC)
    requires IsMerge(b, c, bc) && IsMerge(a, bc, aThenBc)
    requires TopsAgree(All(abThenC))
    ensures Compact(abThenC) == Compact(aThenBc)
  {
    MergeOfMerge(a, b, c, ab, abThenC);
    GatheredTops(a + b + c, abThenC);
    TopsGiveOneWinner(a + b + c, a + b + c);
    MergeAssociatesIff(a, b, c);
  }

  lemma GatheredTops(logs: Logs, m: Logs)
    requires IsGathered(logs, m) && TopsAgree(All(m))
    ensures TopsAgree(All(logs))
  {
    GatheredHas(logs, m);
    forall e | IsTop(All(logs), e) ensures IsTop(All(m), e) {
      TopMoves(All(logs), All(m), e);
    }
  }

  /** ... a state merged with itself compacts as before, ... */
  lemma MergeIdempotent(a: Logs, aa: Logs)
    requires IsMerge(a, a, aa) && TopsAgree(All(a))
    ensures Compact(aa) == Compact(a)
  {
    TopsHeld(a);
    MergeIdempotentIff(a);
  }

  /** ... and the compacted merge is the per-object later of the compacted inputs. */
  lemma MergeTakesLater(a: Logs, b: Logs, m: Logs)
    requires IsMerge(a, b, m) && TopsAgree(All(m))
    ensures Compact(m) == Later(Compact(a), Compact(b))
  {
    AllJoined(a, b);
    LatestJoined(All(a), All(b));
    GatheredTops(a + b, m);
    TopsHeld(a + b);
    MergeTakesLaterIff(a, b);
  }

  // ------------------------------------------------------- tied timestamps

  lemma PairMerge(d: DeviceId, e: Entry, f: Entry)
    ensures IsMerge([DeviceLog(d, [e])], [DeviceLog(d, [f])], [DeviceLog(d, [e, f])])
  {
    var a, b, m := [DeviceLog(d, [e])], [DeviceLog(d, [f])], [DeviceLog(d, [e, f])];
    GatherJoined(a, b, d);
    assert a[1..] == [] && b[1..] == [];
    assert Gather(a, d) == [e] && Gather(b, d) == [f];
    assert Devices(a + b) == {d} && Devices(m) == {d} by {
      assert (a + b)[0].device == d && m[0].device == d;
    }
  }

  lemma PairLatest(d: DeviceId, e: Entry, f: Entry)
    requires e.objectId == f.objectId && e.timestampNs == f.timestampNs
    ensures Compact([DeviceLog(d, [e, f])]) == map[e.objectId := f]
  {
    var m := [DeviceLog(d, [e, f])];
    assert m[1..] == [] && All(m) == [e, f];
    assert [e, f][..1] == [e] && [e][..0] == [];
    assert Latest([e]) == map[e.objectId := e];
  }

  /** Two different versions of an object with one timestamp: the merge that comes second decides. */
  lemma TiedMergesDiffer(d: DeviceId, e: Entry, f: Entry)
    requires e.objectId == f.objectId && e.timestampNs == f.timestampNs && e != f
    ensures var a, b := [DeviceLog(d, [e])], [DeviceLog(d, [f])];
            exists ab, ba :: IsMerge(a, b, ab) && IsMerge(b, a, ba) && Compact(ab) != Compact(ba)
  {
    PairMerge(d, e, f);
    PairMerge(d, f, e);
    PairLatest(d, e, f);
    PairLatest(d, f, e);
    assert map[e.objectId := f][e.objectId] != map[e.objectId := e][e.objectId];
  }

  /** On two devices, one and the same merge is decided by the order of the devices. */
  lemma TiedDevicesDiffer(d: DeviceId, d': DeviceId, e: Entry, f: Entry)
    requires d != d' && e.objectId == f.objectId && e.timestampNs == f.timestampNs && e != f
    ensures var a, b := [DeviceLog(d, [e])], [DeviceLog(d', [f])];
            exists m, n :: IsMerge(a, b, m) && IsMerge(a, b, n) && Compact(m) != Compact(n)
  {
    var a, b := [DeviceLog(d, [e])], [DeviceLog(d', [f])];
    SoleEntry(d, e);
    SoleEntry(d', f);
    AllJoined(a, b);
    DevicesJoined(a, b);
    GatherJoined(a, b, d);
    GatherJoined(a, b, d');
    GatherAbsent(b, d);
    GatherAbsent(a, d');
    assert WinsAt(a + b, d, e) && WinsAt(a + b, d', f);
    DeviceOrderFreeIff(a + b);
  }

  lemma SoleEntry(d: DeviceId, e: Entry)
    ensures var logs := [DeviceLog(d, [e])];
            Devices(logs) == {d} && All(logs) == [e] && Gather(logs, d) == [e] && Latest([e]) == map[e.objectId := e]
  {
    var logs := [DeviceLog(d, [e])];
    assert logs[0].device == d && logs[1..] == [];
    assert [e][..0] == [];
  }

  /** Ties within one log do no harm there: the log's own order decides them on both sides. */
  lemma TiesInOneLogCommute(d: DeviceId, es: seq<Entry>)
    ensures Commutes([DeviceLog(d, es)], [])
  {
    var a: Logs, b: Logs := [DeviceLog(d, es)], [];
    assert a + b == a && b + a == a && a[1..] == [];
    assert Devices(a) == {d} by {
      assert a[0].device == d;
    }
    assert OneWinner(a + b, b + a);
    MergeCommutesIff(a, b);
  }

  // ------------------------------------------------------- the state object

  datatype SyncError = DeviceNotFound(device: DeviceId)

  /** The position of the first log of a device, or the number of logs. */
  function Find(logs: Logs, d: DeviceId): (i: nat)
    ensures i <= |logs|
    ensures i < |logs| ==> logs[i].device == d
    ensures forall k :: 0 <= k < i ==> logs[k].device != d
  {
    if logs == [] || logs[0].device == d then 0 else 1 + Find(logs[1..], d)
  }

  /** The logs with an entry at the end of the device's first log. */
  function WithEntry(logs: Logs, d: DeviceId, entry: Entry): Logs
    requires Find(logs, d) < |logs|
  {
    var i := Find(logs, d);
    logs[i := DeviceLog(d, logs[i].entries + [entry])]
  }

  lemma GatherReplaced(logs: Logs, i: nat, log: DeviceLog, d: DeviceId)
    requires i < |logs|
    ensures Gather(logs[i := log], d) ==
            Gather(logs[..i], d) + (if log.device == d then log.entries else []) + Gather(logs[i + 1..], d)
  {
    assert logs[i := log] == logs[..i] + [log] + logs[i + 1..];
    GatherJoined(logs[..i] + [log], logs[i + 1..], d);
    GatherJoined(logs[..i], [log], d);
    assert [log][1..] == [];
  }

  lemma GatherFromFirst(logs: Logs, d: DeviceId)
    requires Find(logs, d) < |logs|
    ensures var i := Find(logs, d); Gather(logs, d) == logs[i].entries + Gather(logs[i + 1..], d)
  {
    var i := Find(logs, d);
    GatherReplaced(logs, i, logs[i], d);
    assert logs[i := logs[i]] == logs;
    GatherAbsent(logs[..i], d);
    assert [] + logs[i].entries == logs[i].entries;
  }

  lemma OthersKeepTheirs(logs: Logs, i: nat, log: DeviceLog, x: DeviceId)
    requires i < |logs| && log.device == logs[i].device && x != log.device
    ensures Gather(logs[i := log], x) == Gather(logs, x)
  {
    GatherReplaced(logs, i, log, x);
    GatherReplaced(logs, i, logs[i], x);
    assert logs[i := logs[i]] == logs;
  }

  /**
    An appended entry comes after all its device had in the first log, before what later
    logs of the device hold; other devices keep theirs.
   */
  lemma AppendedComesLast(logs: Logs, d: DeviceId, entry: Entry)
    requires Find(logs, d) < |logs|
    ensures var i := Find(logs, d); var logs' := WithEntry(logs, d, entry);
            && Devices(logs') == Devices(logs)
            && (forall x :: x != d ==> Gather(logs', x) == Gather(logs, x))
            && Gather(logs', d) == logs[i].entries + [entry] + Gather(logs[i + 1..], d)
            && Gather(logs, d) == logs[i].entries + Gather(logs[i + 1..], d)
  {
    var i, logs' := Find(logs, d), WithEntry(logs, d, entry);
    SameDevices(logs, logs');
    forall x | x != d ensures Gather(logs', x) == Gather(logs, x) {
      OthersKeepTheirs(logs, i, logs'[i], x);
    }
    assert Find(logs', d) == i;
    GatherFromFirst(logs, d);
    GatherFromFirst(logs', d);
    assert logs'[i + 1..] == logs[i + 1..];
  }

  lemma SameDevices(a: Logs, b: Logs)
    requires |a| == |b| && forall k :: 0 <= k < |a| ==> a[k].device == b[k].device
    ensures Devices(a) == Devices(b)
  {
    forall x ensures x in Devices(a) <==> x in Devices(b) {
      if x in Devices(a) {
        var k :| 0 <= k < |a| && a[k].device == x;
        assert b[k].device == x;
      }
      if x in Devices(b) {
        var k :| 0 <= k < |b| && b[k].device == x;
        assert a[k].device == x;
      }
    }
  }

  /** So it replaces what the device held of its object in its only log, unless that is newer. */
  lemma AppendedIsTaken(logs: Logs, d: DeviceId, entry: Entry)
    requires Find(logs, d) < |logs| && d !in Devices(logs[Find(logs, d) + 1..])
    ensures Latest(Gather(WithEntry(logs, d, entry), d)) == Taken(Latest(Gather(logs, d)), entry)
  {
    AppendedComesLast(logs, d, entry);
    GatherAbsent(logs[Find(logs, d) + 1..], d);
    var own, own' := Gather(logs, d), Gather(WithEntry(logs, d, entry), d);
    assert own' == own + [entry] && own'[..|own|] == own;
  }

  class State {
    var logs: Logs

    constructor ()
      ensures logs == []
    {
      logs := [];
    }

    method AddDevice(device: DeviceId)
      modifies this
      ensures logs == old(logs) + [DeviceLog(device, [])]
    {
      logs := logs + [DeviceLog(device, [])];
    }

    /** The entry goes to the end of the device's first log; an unknown device changes nothing. */
    method Append(device: DeviceId, entry: Entry) returns (r: Result<(), SyncError>)
      modifies this
      ensures r.Ok? <==> device in Devices(old(logs))
      ensures r.Err? ==> r.error == DeviceNotFound(device) && logs == old(logs)
      ensures r.Ok? ==> Find(old(logs), device) < |old(logs)| && logs == WithEntry(old(logs), device, entry)
    {
      assert Find(logs, device) == |logs| ==> device !in Devices(logs);
      var i := Find(logs, device);
      if i == |logs| {
        return Err(DeviceNotFound(device));
      }
      assert logs[i].device in Devices(logs);
      logs := logs[i := DeviceLog(device, logs[i].entries + [entry])];
      return Ok(());
    }
  }

  /** The map holds, for exactly the devices of `logs`, what `logs` has for them. */
  ghost predicate Collected(logs: Logs, merged: map<DeviceId, seq<Entry>>) {
    merged.Keys == Devices(logs) && forall d :: d in merged ==> merged[d] == Gather(logs, d)
  }

  lemma CollectNext(logs: Logs, i: nat, merged: map<DeviceId, seq<Entry>>)
    requires i < |logs| && Collected(logs[..i], merged)
    ensures var log := logs[i];
            Collected(logs[..i + 1],
                      merged[log.device := (if log.device in merged then merged[log.device] else []) + log.entries])
  {
    var log := logs[i];
    assert logs[..i + 1] == logs[..i] + [log];
    AllJoined(logs[..i], [log]);
    GatherNext(logs, i, log.device);
    if log.device !in merged {
      GatherAbsent(logs[..i], log.device);
    }
    forall d | d in merged && d != log.device ensures Gather(logs[..i + 1], d) == merged[d] {
      GatherNext(logs, i, d);
    }
  }

  /** Collects entries by device, then lays the collection out as logs in the map's order. */
  method Merge(a: Logs, b: Logs) returns (m: Logs)
    ensures IsMerge(a, b, m)
    ensures multiset(All(m)) == multiset(All(a)) + multiset(All(b))
  {
    var all := a + b;
    var merged: map<DeviceId, seq<Entry>> := map[];
    for i := 0 to |all|
      invariant Collected(all[..i], merged)
    {
      CollectNext(all, i, merged);
      var log := all[i];
      var held := if log.device in merged then merged[log.device] else [];
      merged := merged[log.device := held + log.entries];
    }
    assert all[..|all|] == all;
    m := LayOut(merged);
    MergeKeepsEntries(a, b, m);
  }

  /** The pairs of a map as logs, in some order. */
  method LayOut(merged: map<DeviceId, seq<Entry>>) returns (m: Logs)
    ensures Devices(m) == merged.Keys
    ensures forall i, j :: 0 <= i < j < |m| ==> m[i].device != m[j].device
    ensures forall i :: 0 <= i < |m| ==> m[i].device in merged && m[i].entries == merged[m[i].device]
  {
    m := [];
    var todo := merged.Keys;
    while todo != {}
      invariant todo <= merged.Keys && Devices(m) == merged.Keys - todo
      invariant forall i, j :: 0 <= i < j < |m| ==> m[i].device != m[j].device
      invariant forall i :: 0 <= i < |m| ==> m[i].device in merged && m[i].entries == merged[m[i].device]
      decreases todo
    {
      var d :| d in todo;
      AllJoined(m, [DeviceLog(d, merged[d])]);
      DevicesJoined(m, [DeviceLog(d, merged[d])]);
      assert forall i :: 0 <= i < |m| ==> m[i].device in Devices(m);
      m := m + [DeviceLog(d, merged[d])];
      todo := todo - {d};
    }
  }

  method CompactLogs(logs: Logs) returns (latest: map<ObjectId, Entry>)
    ensures latest == Compact(logs)
    ensures forall e :: e in All(logs) ==> e.objectId in latest && e.timestampNs <= latest[e.objectId].timestampNs
    ensures forall o :: o in latest ==> latest[o].objectId == o && latest[o] in All(logs)
  {
    var es := All(logs);
    latest := map[];
    for i := 0 to |es|
      invariant latest == Latest(es[..i])
    {
      var entry := es[i];
      assert es[..i + 1][..i] == es[..i];
      var replace := if entry.objectId in latest then entry.timestampNs >= latest[entry.objectId].timestampNs else true;
      if replace {
        latest := latest[entry.objectId := entry];
      }
    }
    assert es[..|es|] == es;
    LatestIsTop(es);
  }
}
