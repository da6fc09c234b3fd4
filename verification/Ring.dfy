/** A ring of slots addressed by a 16-bit counter that wraps, read as a queue. */
module Ring {
  const WRAP: nat := 0x1_0000

  lemma MultiplesApart(n: nat, x: nat, y: nat)
    ensures x < y ==> n * x + n <= n * y
  {
    if x < y {
      assert n * y == n * (x + 1) + n * (y - x - 1);
    }
  }

  lemma ModUnique(a: nat, n: nat, q: nat, r: nat)
    requires n > 0 && a == n * q + r && r < n
    ensures a % n == r
  {
    MultiplesApart(n, q, a / n);
    MultiplesApart(n, a / n, q);
  }

  /** A counter reduced modulo the wrap still names the same slot, because the ring size divides the wrap. */
  lemma WrapKeepsSlot(a: nat, size: nat)
    requires size > 0 && WRAP % size == 0
    ensures (a % WRAP) % size == a % size
  {
    var k := WRAP / size;
    assert WRAP == size * k;
    var q, r := a / WRAP, a % WRAP;
    assert a == size * k * q + r;
    var q', r' := r / size, r % size;
    assert size * k * q == size * (k * q);
    assert a == size * (k * q) + size * q' + r';
    assert size * (k * q) + size * q' == size * (k * q + q');
    ModUnique(a, size, k * q + q', r');
  }

  /** Counters less than one ring apart name different slots. */
  lemma SlotsDiffer(a: nat, b: nat, size: nat)
    requires a < b < a + size
    ensures a % size != b % size
  {
    var qa, qb := a / size, b / size;
    assert a == size * qa + a % size && b == size * qb + b % size;
    MultiplesApart(size, qa, qb);
    MultiplesApart(size, qb, qa);
  }

  function Slot(counter: nat, size: nat): nat
    requires size > 0
  {
    counter % WRAP % size
  }

  /** How far the writer's counter is ahead of the reader's, as two wrapped counters. */
  function Gap(reader: nat, writer: nat): (n: nat)
    requires reader < WRAP && writer < WRAP
    ensures n < WRAP && (reader + n) % WRAP == writer
    ensures n == 0 <==> reader == writer
  {
    if writer >= reader then writer - reader else writer + WRAP - reader
  }

  lemma GapGrows(reader: nat, writer: nat)
    requires reader < WRAP && writer < WRAP && Gap(reader, writer) + 1 < WRAP
    ensures Gap(reader, (writer + 1) % WRAP) == Gap(reader, writer) + 1
  {
  }

  lemma GapShrinks(reader: nat, writer: nat)
    requires reader < WRAP && writer < WRAP && reader != writer
    ensures Gap((reader + 1) % WRAP, writer) == Gap(reader, writer) - 1
  {
  }

  /** The `n` entries from counter `lo` on. */
  function Window<T>(ring: seq<T>, size: nat, lo: nat, n: nat): (w: seq<T>)
    requires 0 < size <= |ring|
    ensures |w| == n
    ensures forall i :: 0 <= i < n ==> w[i] == ring[Slot(lo + i, size)]
  {
    seq(n, i requires 0 <= i < n => ring[Slot(lo + i, size)])
  }

  /** Writing the next slot appends to the queue, as long as the queue is not a whole ring long. */
  lemma PushExtends<T>(ring: seq<T>, size: nat, lo: nat, n: nat, x: T)
    requires 0 < size <= |ring| && WRAP % size == 0 && n < size
    ensures Window(ring[Slot(lo + n, size) := x], size, lo, n + 1) == Window(ring, size, lo, n) + [x]
  {
    var w, w' := Window(ring, size, lo, n), Window(ring[Slot(lo + n, size) := x], size, lo, n + 1);
    forall i | 0 <= i < n ensures w'[i] == w[i] {
      WrapKeepsSlot(lo + i, size);
      WrapKeepsSlot(lo + n, size);
      SlotsDiffer(lo + i, lo + n, size);
    }
  }

  /** Whatever the ring holds and wherever it is read, writing the next slot appends. */
  ghost predicate Pushes(size: nat)
    requires size > 0
  {
    forall ring: seq<nat>, lo: nat, n: nat, x: nat ::
      size <= |ring| && lo < WRAP && n < size ==> PushWorks(ring, size, lo, n, x)
  }

  ghost predicate PushWorks(ring: seq<nat>, size: nat, lo: nat, n: nat, x: nat)
    requires 0 < size <= |ring|
  {
    Window(ring[Slot(lo + n, size) := x], size, lo, n + 1) == Window(ring, size, lo, n) + [x]
  }

  /** The wrap of the counter keeps every slot exactly when the size divides it ... */
  lemma WrapKeepsSlotsIff(size: nat)
    requires size > 0
    ensures (forall a: nat :: Slot(a, size) == a % size) <==> WRAP % size == 0
  {
    if WRAP % size == 0 {
      forall a: nat ensures Slot(a, size) == a % size {
        WrapKeepsSlot(a, size);
      }
    } else {
      assert Slot(WRAP, size) == 0;
    }
  }

  /** ... and otherwise a write just past the wrap lands on an entry not yet read. */
  lemma PushesIff(size: nat)
    requires 0 < size <= WRAP
    ensures Pushes(size) <==> WRAP % size == 0
  {
    if WRAP % size == 0 {
      forall ring: seq<nat>, lo: nat, n: nat, x: nat | size <= |ring| && lo < WRAP && n < size
        ensures PushWorks(ring, size, lo, n, x)
      {
        PushExtends(ring, size, lo, n, x);
      }
    } else {
      var n := WRAP % size;
      var lo, ring := WRAP - n, seq(size, _ => 0);
      ModUnique(lo, size, WRAP / size, 0);
      assert Slot(lo, size) == 0 && Slot(lo + n, size) == 0;
      var w: seq<nat> := Window(ring[0 := 1], size, lo, n + 1);
      assert w[0] == 1 && Window(ring, size, lo, n)[0] == 0;
      assert !PushWorks(ring, size, lo, n, 1);
    }
  }

  /** Advancing the reader's counter by one drops the front of the queue. */
  lemma PopDrops<T>(ring: seq<T>, size: nat, lo: nat, n: nat)
    requires 0 < size <= |ring| && lo < WRAP && n > 0
    ensures Window(ring, size, lo, n)[0] == ring[lo % size]
    ensures Window(ring, size, (lo + 1) % WRAP, n - 1) == Window(ring, size, lo, n)[1..]
  {
    var w, w' := Window(ring, size, lo, n)[1..], Window(ring, size, (lo + 1) % WRAP, n - 1);
    forall i | 0 <= i < n - 1 ensures w'[i] == w[i] {
      assert ((lo + 1) % WRAP + i) % WRAP == (lo + 1 + i) % WRAP;
    }
  }
}
