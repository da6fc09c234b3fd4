/** The virtqueue object: descriptor table and rings changed in place. */
module VirtqueueObject {
  import opened Common
  import opened Ring
  import opened Virtqueue

  /** Slots in each ring, of which a queue uses the first `size`. */
  const VIRTQ_MAX_SIZE: nat := 256

  class Queue {
    const size: nat
    const desc: array<Desc>
    const availRing: array<nat>
    var availIdx: nat
    const usedRing: array<nat>
    var usedIdx: nat
    var lastUsedIdx: nat
    var freeHead: nat
    var numFree: nat

    /** The device's own counter into the available ring. */
    var deviceSeen: nat

    ghost predicate Valid()
      reads this
    {
      && 0 < size <= VIRTQ_MAX_SIZE
      && desc.Length == size
      && availRing.Length == VIRTQ_MAX_SIZE && usedRing.Length == VIRTQ_MAX_SIZE && availRing != usedRing
      && availIdx < WRAP && usedIdx < WRAP && lastUsedIdx < WRAP && deviceSeen < WRAP
    }

    ghost function View(): Table
      reads this, desc
    {
      Table(desc[..], freeHead, numFree)
    }

    /** Completions the driver has not read yet, oldest first. */
    ghost function Pending(): seq<nat>
      requires Valid()
      reads this, usedRing
    {
      Window(usedRing[..], size, lastUsedIdx, Gap(lastUsedIdx, usedIdx))
    }

    /** Published heads the device has not fetched yet, oldest first. */
    ghost function Unfetched(): seq<nat>
      requires Valid()
      reads this, availRing
    {
      Window(availRing[..], size, deviceSeen, Gap(deviceSeen, availIdx))
    }

    /** The rings work as queues for as long as they run only if the size divides the counter range. */
    ghost predicate Even() {
      size > 0 && WRAP % size == 0
    }

    constructor (size: nat)
      requires 0 < size <= VIRTQ_MAX_SIZE
      ensures Valid() && this.size == size
      ensures fresh(desc) && fresh(availRing) && fresh(usedRing)
      ensures View() == NewTable(size) && Pending() == [] && Unfetched() == []
    {
      this.size := size;
      var table := new Desc[size](_ => Desc(0, 0, false, false, 0));
      var avail, used := new nat[VIRTQ_MAX_SIZE], new nat[VIRTQ_MAX_SIZE];
      for i := 0 to size
        invariant forall k :: 0 <= k < i ==> table[k] == Linked(size, k)
        invariant forall k :: i <= k < size ==> table[k] == Desc(0, 0, false, false, 0)
      {
        table[i] := table[i].(next := if i + 1 < size then i + 1 else 0);
      }
      desc, availRing, usedRing := table, avail, used;
      availIdx, usedIdx, lastUsedIdx, deviceSeen := 0, 0, 0, 0;
      freeHead, numFree := 0, size;
    }

    method AllocDesc(count: nat) returns (head: Option<nat>)
      requires Valid() && Sound(View())
      modifies this`freeHead, this`numFree
      ensures Valid() && (View(), head) == Alloc(old(View()), count)
    {
      if numFree < count {
        return None;
      }
      head := Some(freeHead);
      var at := freeHead;
      for k := 0 to count
        invariant Follow(desc[..], at, count - k) == Follow(desc[..], freeHead, count)
        invariant |Walk(desc[..], at, numFree - k)| == numFree - k
      {
        at := desc[at].next;
      }
      freeHead := at;
      numFree := numFree - count;
    }

    /** Walks the chain by its flags, counting, and hooks its end to the free list. */
    method FreeDesc(head: nat, ghost chain: seq<nat>)
      requires Valid() && IsChain(desc[..], chain) && chain[0] == head && |chain| <= size
      modifies this`freeHead, this`numFree, desc
      ensures Valid() && View() == FreeFrom(old(View()), head)
    {
      ChainFound(desc[..], chain, size);
      var at := head;
      ghost var k := 0;
      while true
        invariant 0 <= k < |chain| && at == chain[k] && numFree == old(numFree) + k
        invariant desc[..] == old(desc[..]) && freeHead == old(freeHead)
        decreases |chain| - k
      {
        var next, hasNext := desc[at].next, desc[at].hasNext;
        numFree := numFree + 1;
        if !hasNext {
          desc[at] := desc[at].(next := freeHead);
          freeHead := head;
          break;
        }
        at := next;
        k := k + 1;
      }
    }

    method AddToAvail(head: nat)
      requires Valid()
      modifies this`availIdx, availRing
      ensures Valid() && availIdx == (old(availIdx) + 1) % WRAP
      ensures availRing[..] == old(availRing[..])[old(availIdx) % size := head]
      ensures Even() && |old(Unfetched())| < size ==> Unfetched() == old(Unfetched()) + [head]
    {
      if Even() && |Unfetched()| < size {
        PushExtends(availRing[..], size, deviceSeen, |Unfetched()|, head);
        GapGrows(deviceSeen, availIdx);
      }
      var idx := availIdx;
      availRing[idx % size] := head;
      availIdx := (idx + 1) % WRAP;
    }

    method HasUsed() returns (any: bool)
      requires Valid()
      ensures any <==> Pending() != []
    {
      any := lastUsedIdx != usedIdx;
    }

    method GetUsed() returns (id: Option<nat>)
      requires Valid()
      modifies this`lastUsedIdx
      ensures Valid()
      ensures old(Pending()) == [] ==> id == None && Pending() == []
      ensures old(Pending()) != [] ==> id == Some(old(Pending())[0]) && Pending() == old(Pending())[1..]
    {
      var any := HasUsed();
      if !any {
        return None;
      }
      PopDrops(usedRing[..], size, lastUsedIdx, Gap(lastUsedIdx, usedIdx));
      GapShrinks(lastUsedIdx, usedIdx);
      var idx := lastUsedIdx;
      id := Some(usedRing[idx % size]);
      lastUsedIdx := (lastUsedIdx + 1) % WRAP;
    }

    /** The device takes the oldest published head. */
    method DeviceFetch() returns (head: nat)
      requires Valid() && Unfetched() != []
      modifies this`deviceSeen
      ensures Valid() && head == old(Unfetched())[0] && Unfetched() == old(Unfetched())[1..]
    {
      PopDrops(availRing[..], size, deviceSeen, Gap(deviceSeen, availIdx));
      GapShrinks(deviceSeen, availIdx);
      head := availRing[deviceSeen % size];
      deviceSeen := (deviceSeen + 1) % WRAP;
    }

    /** The device reports a head as completed. */
    method DeviceReport(head: nat)
      requires Valid() && Even() && |Pending()| < size
      modifies this`usedIdx, usedRing
      ensures Valid() && Pending() == old(Pending()) + [head]
    {
      PushExtends(usedRing[..], size, lastUsedIdx, |Pending()|, head);
      GapGrows(lastUsedIdx, usedIdx);
      usedRing[usedIdx % size] := head;
      usedIdx := (usedIdx + 1) % WRAP;
    }
  }
}
