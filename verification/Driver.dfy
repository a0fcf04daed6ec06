/**
 The capture driver as its callers see it: a pool of allocated buffers, a FIFO of buffers waiting to be
 filled and a FIFO of filled ones ("Streaming I/O" of the V4L2 API).  A buffer index is bound to the
 DMA-BUF object that holds its pixels.
 */
module Driver {
  import opened Wire

  type Obj = nat    // identity of a DMA-BUF object
  type Frame = int  // the contents of one buffer, compared only for equality

  datatype Driver = Driver(
    alloc: u32,             // buffers granted by REQBUFS
    bound: map<u32, Obj>,   // the memory behind each index
    incoming: seq<u32>,     // queued, to be filled, oldest first
    done: seq<u32>,         // filled, to be dequeued, oldest first
    streaming: bool)

  const IDLE := Driver(0, map[], [], [], false)

  /** Everything the driver holds, in the order in which DQBUF will hand it out. */
  function Order(d: Driver): seq<u32> {
    d.done + d.incoming
  }

  predicate IsQueued(d: Driver, i: u32) {
    i in d.incoming || i in d.done
  }

  /** QBUF accepts an index only if it was allocated and is in the application's hands. */
  predicate CanQueue(d: Driver, i: u32) {
    i < d.alloc && !IsQueued(d, i)
  }

  function Queue(d: Driver, i: u32, o: Obj): Driver
    requires CanQueue(d, i)
  {
    d.(bound := d.bound[i := o], incoming := d.incoming + [i])
  }

  predicate CanDequeue(d: Driver) {
    d.streaming && d.done != []
  }

  function Dequeue(d: Driver): Driver
    requires CanDequeue(d)
  {
    d.(done := d.done[1..])
  }

  /** The device finishes the oldest queued buffer. */
  function Complete(d: Driver): Driver
    requires d.streaming && d.incoming != []
  {
    d.(done := d.done + [d.incoming[0]], incoming := d.incoming[1..])
  }

  /** STREAMOFF hands every buffer back to the application. */
  function SwitchOff(d: Driver): Driver {
    d.(incoming := [], done := [], streaming := false)
  }

  function Range(n: u32): (r: seq<u32>)
    ensures |r| == n && forall i :: 0 <= i < n ==> r[i] == i
  {
    seq(n, i requires 0 <= i < n => i)
  }

  predicate Distinct<T(==)>(s: seq<T>) {
    forall i, j :: 0 <= i < j < |s| ==> s[i] != s[j]
  }

  lemma CompleteKeepsOrder(d: Driver)
    requires d.streaming && d.incoming != []
    ensures Order(Complete(d)) == Order(d)
    ensures forall i :: IsQueued(Complete(d), i) <==> IsQueued(d, i)
  {
  }

  lemma OrderIsQueued(d: Driver, i: u32)
    ensures i in Order(d) <==> IsQueued(d, i)
  {
  }

  // ---- the ring: what the FIFO looks like after k dequeues with at most one buffer out ----

  /** Slot h+j of a ring of n slots. */
  function Wrap(x: nat, n: nat): nat
    requires n > 0 && x < 2 * n
  {
    if x < n then x else x - n
  }

  /** The index that the k-th dequeue (from 0) returns. */
  function Head(k: nat, n: nat): (h: nat)
    requires n > 0
    ensures h < n
  {
    if k == 0 then 0 else Wrap(Head(k - 1, n) + 1, n)
  }

  lemma {:induction false} HeadIsModulo(k: nat, n: nat)
    requires n > 0
    ensures Head(k, n) == k % n
  {
    if k == 0 {
      assert 0 % n == 0;
    } else {
      HeadIsModulo(k - 1, n);
      ModStep(k - 1, n);
    }
  }

  lemma ModStep(k: nat, n: nat)
    requires n > 0
    ensures (k + 1) % n == if k % n + 1 == n then 0 else k % n + 1
  {
    var q, r := k / n, k % n;
    assert k == q * n + r;
    if r + 1 == n {
      assert k + 1 == (q + 1) * n;
      MultipleMod(q + 1, 0, n);
    } else {
      MultipleMod(q, r + 1, n);
    }
  }

  lemma MultipleMod(q: nat, r: nat, n: nat)
    requires r < n
    ensures (q * n + r) % n == r
  {
    var x := q * n + r;
    var d := x / n;
    assert x == d * n + x % n;
    assert (q - d) * n == q * n - d * n;
    SmallMultiple(q - d, n, x % n - r);
  }

  lemma SmallMultiple(e: int, n: int, d: int)
    requires e * n == d && 0 < n && -n < d < n
    ensures d == 0
  {
  }

  /** After k dequeues the driver holds the n ring slots from Head(k) on, all but the one that is out. */
  predicate Ring(order: seq<u32>, n: u32, k: nat, held: Option<u32>)
    requires n > 0
  {
    && |order| == (if held.Some? then n - 1 else n)
    && (forall j :: 0 <= j < |order| ==> order[j] == Wrap(Head(k, n) + j, n))
    && (held.Some? ==> k > 0 && held.value == Head(k - 1, n))
  }

  lemma RingInitially(n: u32)
    requires n > 0
    ensures Ring(Range(n), n, 0, None)
  {
  }

  lemma RingDequeue(order: seq<u32>, n: u32, k: nat)
    requires n > 0 && Ring(order, n, k, None)
    ensures Ring(order[1..], n, k + 1, Some(order[0]))
    ensures order[0] == Head(k, n)
  {
  }

  lemma RingRequeue(order: seq<u32>, n: u32, k: nat, i: u32)
    requires n > 0 && Ring(order, n, k, Some(i))
    ensures Ring(order + [i], n, k, None)
  {
  }

  /** The ring splits 0..n-1 into the driver's buffers, without repetition, and the one that is out. */
  lemma RingPartition(order: seq<u32>, n: u32, k: nat, held: Option<u32>)
    requires n > 0 && Ring(order, n, k, held)
    ensures Distinct(order)
    ensures forall i: u32 :: i < n <==> (i in order || held == Some(i))
    ensures held.Some? ==> held.value !in order
  {
    var h := Head(k, n);
    forall i: u32 | i < n
      ensures i in order || held == Some(i)
    {
      var j := if i >= h then i - h else i + n - h;
      assert Wrap(h + j, n) == i;
      if j < |order| {
        assert order[j] == i;
      }
    }
  }
}
