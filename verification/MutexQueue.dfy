/**
 The ring buffer of run_mutex in bench.c: what a producer and a consumer do to it inside their
 critical sections.  The threads, the mutex and the condition variables are in MutexRun.
 */
module MutexQueue {
  import opened Modular

  // ---------------------------------------------------------------- the ring buffer

  datatype Ring = Ring(buf: seq<int>, head: nat, tail: nat, count: nat)

  ghost predicate RingOk(q: Ring) {
    && 0 < |q.buf| && q.head < |q.buf| && q.count <= |q.buf|
    && q.tail == Slot(q.head, q.count, |q.buf|)
  }

  /** The items between head and tail, oldest first. */
  function Contents(q: Ring): (s: seq<int>)
    requires 0 < |q.buf|
    ensures |s| == q.count
  {
    seq(q.count, k requires 0 <= k < q.count => q.buf[Slot(q.head, k, |q.buf|)])
  }

  function PutRing(q: Ring, item: int): Ring
    requires q.tail < |q.buf|
  {
    Ring(q.buf[q.tail := item], q.head, (q.tail + 1) % |q.buf|, q.count + 1)
  }

  function TakeRing(q: Ring): Ring
    requires 0 < |q.buf| && 0 < q.count
  {
    Ring(q.buf, (q.head + 1) % |q.buf|, q.tail, q.count - 1)
  }

  /** Filling the slot at tail appends, and overwrites nothing that is still held. */
  lemma PutAppends(q: Ring, item: int)
    requires RingOk(q) && q.count < |q.buf|
    ensures q.tail < |q.buf| && RingOk(PutRing(q, item))
    ensures Contents(PutRing(q, item)) == Contents(q) + [item]
  {
    SlotNext(q.head, q.count, |q.buf|);
    hide Slot;
    forall k | 0 <= k < q.count ensures Slot(q.head, k, |q.buf|) != q.tail {
      SlotsDiffer(q.head, k, q.count, |q.buf|);
    }
    forall k | 0 <= k < q.count ensures Contents(PutRing(q, item))[k] == (Contents(q) + [item])[k] {
    }
  }

  /** Releasing the slot at head drops the oldest item. */
  lemma TakeDropsOldest(q: Ring)
    requires RingOk(q) && 0 < q.count
    ensures RingOk(TakeRing(q)) && Contents(TakeRing(q)) == Contents(q)[1..]
  {
    hide Slot;
    SlotShift(q.head, q.count - 1, |q.buf|);
    forall k | 0 <= k < q.count - 1 ensures Contents(TakeRing(q))[k] == Contents(q)[1..][k] {
      SlotShift(q.head, k, |q.buf|);
    }
  }

  /** The critical sections of mutex_producer and mutex_consumer, on the shared struct itself. */
  class Queue {
    const buf: array<int>
    var head: nat
    var tail: nat
    var count: nat

    function State(): Ring
      reads this, buf
    {
      Ring(buf[..], head, tail, count)
    }

    constructor (size: nat)
      requires 0 < size
      ensures RingOk(State()) && buf.Length == size && Contents(State()) == [] && fresh(buf)
    {
      buf := new int[size](_ => 0);
      head, tail, count := 0, 0, 0;
    }

    method Put(item: int)
      requires RingOk(State()) && count < buf.Length
      modifies this, buf
      ensures State() == PutRing(old(State()), item)
      ensures RingOk(State()) && Contents(State()) == old(Contents(State())) + [item]
    {
      PutAppends(State(), item);
      buf[tail] := item;
      tail := (tail + 1) % buf.Length;
      count := count + 1;
    }

    method Take()
      requires RingOk(State()) && 0 < count
      modifies this
      ensures State() == TakeRing(old(State()))
      ensures RingOk(State()) && Contents(State()) == old(Contents(State()))[1..]
    {
      TakeDropsOldest(State());
      head := (head + 1) % buf.Length;
      count := count - 1;
    }
  }
}
