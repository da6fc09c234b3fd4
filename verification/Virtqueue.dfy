/**
  The split virtqueue: a free list threaded through the descriptor table, and
  the two rings whose 16-bit counters wrap.
 */
module Virtqueue {
  import opened Common

  /** The two descriptor flags in use; `next` means something only with `hasNext`, or on the free list. */
  datatype Desc = Desc(addr: nat, len: nat, hasNext: bool, deviceWrites: bool, next: nat)

  /** The descriptor table with the head and the length of its free list. */
  datatype Table = Table(desc: seq<Desc>, freeHead: nat, numFree: nat)

  /** The first `n` descriptors met from `from` along `next`. */
  function Walk(desc: seq<Desc>, from: nat, n: nat): (path: seq<nat>)
    ensures |path| <= n
    ensures forall i :: 0 <= i < |path| ==> path[i] < |desc|
    decreases n
  {
    if n == 0 || from >= |desc| then [] else [from] + Walk(desc, desc[from].next, n - 1)
  }

  /** Where `n` steps along `next` lead. */
  function Follow(desc: seq<Desc>, from: nat, n: nat): nat
    decreases n
  {
    if n == 0 || from >= |desc| then from else Follow(desc, desc[from].next, n - 1)
  }

  function FreeList(t: Table): seq<nat> {
    Walk(t.desc, t.freeHead, t.numFree)
  }

  ghost predicate Distinct(s: seq<nat>) {
    forall i, j :: 0 <= i < j < |s| ==> s[i] != s[j]
  }

  function Elems(s: seq<nat>): set<nat> {
    set x | x in s
  }

  /** The numbers from `lo` up to `hi`, ascending. */
  function Range(lo: nat, hi: nat): (s: seq<nat>)
    requires lo <= hi
    ensures |s| == hi - lo
    ensures forall i :: 0 <= i < |s| ==> s[i] == lo + i
    ensures forall x :: x in s <==> lo <= x < hi
    decreases hi - lo
  {
    if lo == hi then [] else [lo] + Range(lo + 1, hi)
  }

  /** The free list is as long as it claims and meets no descriptor twice. */
  ghost predicate Sound(t: Table) {
    |FreeList(t)| == t.numFree && Distinct(FreeList(t))
  }

  // ------------------------------------------------ operations, on values

  function Linked(size: nat, i: nat): Desc
    requires i < size
  {
    Desc(0, 0, false, false, if i + 1 < size then i + 1 else 0)
  }

  function NewTable(size: nat): Table {
    Table(seq(size, i requires 0 <= i < size => Linked(size, i)), 0, size)
  }

  function Alloc(t: Table, count: nat): (Table, Option<nat>) {
    if t.numFree < count then (t, None)
    else (t.(freeHead := Follow(t.desc, t.freeHead, count), numFree := t.numFree - count), Some(t.freeHead))
  }

  /** The chain runs from descriptor to descriptor by its NEXT flags and ends where the flag is clear. */
  ghost predicate IsChain(desc: seq<Desc>, chain: seq<nat>) {
    && |chain| > 0
    && (forall i :: 0 <= i < |chain| ==> chain[i] < |desc|)
    && (forall i :: 0 <= i < |chain| - 1 ==> desc[chain[i]].hasNext && desc[chain[i]].next == chain[i + 1])
    && !desc[chain[|chain| - 1]].hasNext
  }

  function Free(t: Table, chain: seq<nat>): Table
    requires |chain| > 0 && chain[|chain| - 1] < |t.desc|
  {
    var last := chain[|chain| - 1];
    Table(t.desc[last := t.desc[last].(next := t.freeHead)], chain[0], t.numFree + |chain|)
  }

  /** The descriptors met from `head` by NEXT flags, at most `n` of them. */
  function ChainFrom(desc: seq<Desc>, head: nat, n: nat): (chain: seq<nat>)
    requires head < |desc|
    ensures forall i :: 0 <= i < |chain| ==> chain[i] < |desc|
    ensures n > 0 ==> |chain| > 0
    decreases n
  {
    if n == 0 then []
    else if desc[head].hasNext && desc[head].next < |desc| then [head] + ChainFrom(desc, desc[head].next, n - 1)
    else [head]
  }

  /** Returning the chain that starts at `head`, found by its flags. */
  function FreeFrom(t: Table, head: nat): Table
    requires head < |t.desc|
  {
    Free(t, ChainFrom(t.desc, head, |t.desc|))
  }

  lemma {:induction false} ChainFound(desc: seq<Desc>, chain: seq<nat>, n: nat)
    requires IsChain(desc, chain) && |chain| <= n
    ensures ChainFrom(desc, chain[0], n) == chain
    decreases |chain|
  {
    if |chain| == 1 {
      assert chain == [chain[0]];
    } else {
      ChainFound(desc, chain[1..], n - 1);
      assert chain == [chain[0]] + chain[1..];
    }
  }

  // -------------------------------------------------- walking the free list

  lemma {:induction false} WalkFrame(desc: seq<Desc>, desc': seq<Desc>, from: nat, n: nat)
    requires |desc| == |desc'|
    requires forall x :: x in Walk(desc, from, n) ==> desc'[x].next == desc[x].next
    ensures Walk(desc', from, n) == Walk(desc, from, n)
    decreases n
  {
    if n > 0 && from < |desc| {
      var rest := Walk(desc, desc[from].next, n - 1);
      assert Walk(desc, from, n) == [from] + rest;
      assert from in Walk(desc, from, n);
      assert forall x :: x in rest ==> x in [from] + rest;
      WalkFrame(desc, desc', desc[from].next, n - 1);
    }
  }

  lemma {:induction false} WalkSplit(desc: seq<Desc>, from: nat, n: nat, count: nat)
    requires |Walk(desc, from, n)| == n && count <= n
    ensures Walk(desc, Follow(desc, from, count), n - count) == Walk(desc, from, n)[count..]
    decreases n
  {
    if count > 0 {
      WalkSplit(desc, desc[from].next, n - 1, count - 1);
    }
  }

  /** Along a linked path the walk reports the path, then goes on from where it leads. */
  lemma {:induction false} WalkAlong(desc: seq<Desc>, path: seq<nat>, end: nat, n: nat)
    requires |path| > 0 && forall i :: 0 <= i < |path| ==> path[i] < |desc|
    requires forall i :: 0 <= i < |path| - 1 ==> desc[path[i]].next == path[i + 1]
    requires desc[path[|path| - 1]].next == end
    ensures Walk(desc, path[0], |path| + n) == path + Walk(desc, end, n)
    decreases |path|
  {
    if |path| == 1 {
      assert path == [path[0]];
    } else {
      WalkAlong(desc, path[1..], end, n);
      assert path == [path[0]] + path[1..];
    }
  }

  lemma AllocTakesFront(t: Table, count: nat)
    requires Sound(t) && count <= t.numFree
    ensures var t' := Alloc(t, count).0;
            Sound(t') && FreeList(t') == FreeList(t)[count..] && t'.desc == t.desc
    ensures count > 0 ==> Alloc(t, count).1 == Some(FreeList(t)[0])
  {
    WalkSplit(t.desc, t.freeHead, t.numFree, count);
  }

  lemma DistinctJoined(a: seq<nat>, b: seq<nat>)
    requires Distinct(a) && Distinct(b) && forall x :: x in a ==> x !in b
    ensures Distinct(a + b)
  {
    var ab := a + b;
    forall i, j | 0 <= i < j < |ab| ensures ab[i] != ab[j] {
      if i < |a| <= j {
        assert ab[i] in a && ab[j] in b;
      }
    }
  }

  lemma FreePutsFront(t: Table, chain: seq<nat>)
    requires Sound(t) && IsChain(t.desc, chain) && Distinct(chain)
    requires forall x :: x in chain ==> x !in FreeList(t)
    ensures Sound(Free(t, chain)) && FreeList(Free(t, chain)) == chain + FreeList(t)
  {
    var t' := Free(t, chain);
    var last := chain[|chain| - 1];
    assert last in chain;
    WalkFrame(t.desc, t'.desc, t.freeHead, t.numFree);
    WalkAlong(t'.desc, chain, t.freeHead, t.numFree);
    DistinctJoined(chain, FreeList(t));
  }

  lemma NewTableSound(size: nat)
    ensures Sound(NewTable(size)) && FreeList(NewTable(size)) == Range(0, size)
  {
    var t := NewTable(size);
    if size > 0 {
      var all := Range(0, size);
      WalkAlong(t.desc, all, 0, 0);
      assert all + Walk(t.desc, 0, 0) == all;
    }
  }

  /** A write to a descriptor that is off the free list does not disturb the list. */
  lemma WriteKeepsFree(t: Table, i: nat, d: Desc)
    requires Sound(t) && i < |t.desc| && i !in FreeList(t)
    ensures var t' := t.(desc := t.desc[i := d]); Sound(t') && FreeList(t') == FreeList(t)
  {
    WalkFrame(t.desc, t.desc[i := d], t.freeHead, t.numFree);
  }

  // ----------------------------------------------- every use of the allocator

  /** The table together with the descriptors its users hold. */
  datatype Pool = Pool(table: Table, held: set<nat>)

  datatype Use =
    | Take(count: nat)
    | Write(i: nat, d: Desc)
    | Give(chain: seq<nat>)

  /** Users write only what they hold and give back only chains of what they hold. */
  ghost predicate Permitted(p: Pool, u: Use) {
    match u
    case Take(count) => count > 0
    case Write(i, _) => i in p.held && i < |p.table.desc|
    case Give(chain) => IsChain(p.table.desc, chain) && Distinct(chain) && Elems(chain) <= p.held
  }

  ghost function Used(p: Pool, u: Use): Pool
    requires Permitted(p, u)
  {
    match u
    case Take(count) =>
      var (t', head) := Alloc(p.table, count);
      Pool(t', if head.Some? then p.held + Elems(Walk(p.table.desc, head.value, count)) else p.held)
    case Write(i, d) => p.(table := p.table.(desc := p.table.desc[i := d]))
    case Give(chain) => Pool(Free(p.table, chain), p.held - Elems(chain))
  }

  ghost predicate IsUse(p: Pool, us: seq<Use>)
    decreases |us|
  {
    us == [] || (Permitted(p, us[0]) && IsUse(Used(p, us[0]), us[1..]))
  }

  ghost function After(p: Pool, us: seq<Use>): Pool
    requires IsUse(p, us)
    decreases |us|
  {
    if us == [] then p else After(Used(p, us[0]), us[1..])
  }

  /**
    Free and held descriptors are disjoint and together the whole table, and the
    free list names each free one once.
   */
  ghost predicate Partitioned(p: Pool, size: nat) {
    && |p.table.desc| == size
    && Sound(p.table)
    && (forall x :: x in FreeList(p.table) ==> x !in p.held)
    && (forall x :: 0 <= x < size ==> x in FreeList(p.table) || x in p.held)
    && (forall x :: x in p.held ==> x < size)
  }

  lemma {:induction false} WalkPrefix(desc: seq<Desc>, from: nat, n: nat, count: nat)
    requires count <= n && |Walk(desc, from, n)| == n
    ensures Walk(desc, from, count) == Walk(desc, from, n)[..count]
    decreases n
  {
    if count > 0 {
      WalkPrefix(desc, desc[from].next, n - 1, count - 1);
    }
  }

  lemma TakeKeepsPartition(p: Pool, count: nat, size: nat)
    requires Partitioned(p, size) && 0 < count <= p.table.numFree
    ensures Partitioned(Used(p, Take(count)), size)
  {
    var free := FreeList(p.table);
    AllocTakesFront(p.table, count);
    WalkPrefix(p.table.desc, p.table.freeHead, p.table.numFree, count);
    assert free == free[..count] + free[count..];
    forall x | x in free[count..] ensures x !in free[..count] {
      var j :| count <= j < |free| && free[j] == x;
    }
  }

  lemma UseKeepsPartition(p: Pool, u: Use, size: nat)
    requires Partitioned(p, size) && Permitted(p, u)
    ensures Partitioned(Used(p, u), size)
  {
    match u
    case Take(count) =>
      if count <= p.table.numFree {
        TakeKeepsPartition(p, count, size);
      }
    case Write(i, d) => WriteKeepsFree(p.table, i, d);
    case Give(chain) =>
      assert forall x :: x in chain ==> x in Elems(chain);
      FreePutsFront(p.table, chain);
  }

  lemma {:induction false} UsesKeepPartition(p: Pool, us: seq<Use>, size: nat)
    requires Partitioned(p, size) && IsUse(p, us)
    ensures Partitioned(After(p, us), size)
    decreases |us|
  {
    if us != [] {
      UseKeepsPartition(p, us[0], size);
      UsesKeepPartition(Used(p, us[0]), us[1..], size);
    }
  }

  /**
    Allocator partition: after any interleaving of allocations, writes to held
    descriptors and returns of flag-linked chains, following `next` from the free
    head `numFree` times visits each unallocated descriptor exactly once and no
    allocated one.
   */
  lemma AllocatorPartition(size: nat, us: seq<Use>)
    requires IsUse(Pool(NewTable(size), {}), us)
    ensures Partitioned(After(Pool(NewTable(size), {}), us), size)
    ensures var p := After(Pool(NewTable(size), {}), us); p.table.numFree + |p.held| == size
  {
    NewTableSound(size);
    UsesKeepPartition(Pool(NewTable(size), {}), us, size);
    PartitionSize(After(Pool(NewTable(size), {}), us), size);
  }

  lemma {:induction false} DistinctSize(s: seq<nat>)
    requires Distinct(s)
    ensures |Elems(s)| == |s|
    decreases |s|
  {
    if s != [] {
      DistinctSize(s[1..]);
      assert Elems(s) == {s[0]} + Elems(s[1..]);
      assert s[0] !in Elems(s[1..]);
    }
  }

  lemma PartitionSize(p: Pool, size: nat)
    requires Partitioned(p, size)
    ensures p.table.numFree + |p.held| == size
  {
    var all := Range(0, size);
    DistinctSize(all);
    DistinctSize(FreeList(p.table));
    assert Elems(all) == Elems(FreeList(p.table)) + p.held;
    assert Elems(FreeList(p.table)) !! p.held;
  }
}
