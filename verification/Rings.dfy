/** The circular queue of one pool, as a value: what the two critical sections do to it. */
module Rings {
  import opened Structures
  import opened Arithmetic

  /** The allocated slots, whose number is the field `reserved`, and the three counters. */
  datatype Ring = Ring(slots: seq<Package>, head: nat, tail: nat, size: nat) {
    function Capacity(): nat {
      |slots|
    }
  }

  /** The indices a non-empty buffer can be accessed with. */
  predicate InBounds(r: Ring) {
    r.head < r.Capacity() && r.tail < r.Capacity()
  }

  /** The first half of the enqueue section: copy into the tail slot. */
  function CopyIn(r: Ring, p: Package): Ring
    requires InBounds(r)
  {
    r.(slots := r.slots[r.tail := p])
  }

  /** The second half: advance the tail; `size` wraps like an `unsigned int`. */
  function CountIn(r: Ring): Ring
    requires InBounds(r)
  {
    r.(tail := (r.tail + 1) % r.Capacity(), size := Increment(r.size))
  }

  function Enqueue(r: Ring, p: Package): Ring
    requires InBounds(r)
  {
    CountIn(CopyIn(r, p))
  }

  /** The dequeue section: the slot handed out is `r.head`; `size` wraps below zero. */
  function Dequeue(r: Ring): Ring
    requires InBounds(r)
  {
    r.(head := (r.head + 1) % r.Capacity(), size := Decrement(r.size))
  }

  /** The first-in first-out queue a ring stands for. */
  function Queue(r: Ring): (q: seq<Package>)
    requires r.size > 0 ==> r.Capacity() > 0
    ensures |q| == r.size
  {
    seq(r.size, i requires 0 <= i < r.size => r.slots[QueueSlot(r, i)])
  }

  /** The counters agree with one another and nothing has overflowed. */
  predicate Consistent(r: Ring) {
    && r.Capacity() < UINT_RANGE
    && r.size <= r.Capacity()
    && (r.Capacity() == 0 ==> r.head == r.tail == 0)
    && (r.Capacity() > 0 ==> InBounds(r) && r.tail == (r.head + r.size) % r.Capacity())
  }

  /** Element `i` of the queue is in slot `QueueSlot(r, i)`. */
  function QueueSlot(r: Ring, i: nat): nat
    requires r.Capacity() > 0
  {
    (r.head + i) % r.Capacity()
  }

  /** The tail slot is not one of the slots in use. */
  lemma TailIsFree(r: Ring, i: nat)
    requires Consistent(r) && i < r.size < r.Capacity()
    ensures QueueSlot(r, i) != r.tail
  {
    ModWindow(r.head + i, r.head + r.size, r.Capacity());
  }

  lemma EnqueueConsistent(r: Ring, p: Package)
    requires Consistent(r) && r.size < r.Capacity()
    ensures Consistent(Enqueue(r, p))
  {
    ModStep(r.head + r.size, r.Capacity());
  }

  /** An enqueue into a ring with room appends to the queue. */
  lemma EnqueueAppends(r: Ring, p: Package)
    requires Consistent(r) && r.size < r.Capacity()
    ensures Consistent(Enqueue(r, p))
    ensures Queue(Enqueue(r, p)) == Queue(r) + [p]
  {
    var r' := Enqueue(r, p);
    EnqueueConsistent(r, p);
    forall i | 0 <= i < r.size
      ensures Queue(r')[i] == Queue(r)[i]
    {
      TailIsFree(r, i);
    }
    assert Queue(r')[r.size] == p;
    assert Queue(r') == Queue(r) + [p];
  }

  /** A dequeue from a non-empty ring hands out the first element and keeps the others in order. */
  lemma DequeueRemovesFirst(r: Ring)
    requires Consistent(r) && r.size > 0
    ensures Consistent(Dequeue(r))
    ensures r.slots[r.head] == Queue(r)[0]
    ensures Queue(Dequeue(r)) == Queue(r)[1..]
  {
    var r' := Dequeue(r);
    forall i: nat
      ensures QueueSlot(r', i) == QueueSlot(r, i + 1)
    {
      ModAdd(r.head + 1, i, r.Capacity());
    }
    assert QueueSlot(r', r.size - 1) == QueueSlot(r, r.size);
    forall i | 0 <= i < r'.size
      ensures Queue(r')[i] == Queue(r)[i + 1]
    {
      assert QueueSlot(r', i) == QueueSlot(r, i + 1);
    }
    ModSmall(r.head, r.Capacity());
  }

  /** The slot handed out by a dequeue is none of those still in use, so whatever is written to it
      afterwards does not disturb the queue. */
  lemma HandedOutIsFree(r: Ring, p: Package)
    requires Consistent(r) && r.size > 0
    ensures var written := Dequeue(r).(slots := r.slots[r.head := p]);
            Consistent(written) && Queue(written) == Queue(r)[1..]
  {
    DequeueRemovesFirst(r);
    var r' := Dequeue(r);
    var written := r'.(slots := r.slots[r.head := p]);
    forall i | 0 <= i < r'.size
      ensures Queue(written)[i] == Queue(r')[i]
    {
      ModAdd(r.head + 1, i, r.Capacity());
      ModWindow(r.head, r.head + 1 + i, r.Capacity());
      ModSmall(r.head, r.Capacity());
    }
  }

  /** Ring `r` after the packages of `log` were copied in, in this order, all of them counted in `size`
      but the last one if `counted < |log|`, and `dequeued` of them came out: the counters are the ticket
      numbers reduced modulo the capacity, and the slot of each of the last `Capacity()` tickets still
      holds that package. The history `writers` has the ticket that last went into each slot. */
  predicate Tickets(r: Ring, writers: seq<nat>, log: seq<Package>, counted: nat, dequeued: nat) {
    var c := r.Capacity();
    && dequeued <= counted <= |log| <= counted + 1
    && r.size == counted - dequeued
    && |writers| == c
    && (c == 0 ==> log == [] && r.head == r.tail == 0)
    && (c > 0 ==> r.head == dequeued % c && r.tail == counted % c)
    && (forall t :: 0 <= t < |log| && |log| <= t + c ==> r.slots[t % c] == log[t] && writers[t % c] == t)
  }

  lemma TicketsCopy(r: Ring, writers: seq<nat>, log: seq<Package>, dequeued: nat, p: Package)
    requires Tickets(r, writers, log, |log|, dequeued) && r.Capacity() > 0
    ensures InBounds(r)
    ensures Tickets(CopyIn(r, p), writers[r.tail := |log|], log + [p], |log|, dequeued)
  {
    var c := r.Capacity();
    var r', writers', log' := CopyIn(r, p), writers[r.tail := |log|], log + [p];
    forall t | 0 <= t < |log'| && |log'| <= t + c
      ensures r'.slots[t % c] == log'[t] && writers'[t % c] == t
    {
      if t < |log| {
        ModWindow(t, |log|, c);
      }
    }
  }

  lemma TicketsCount(r: Ring, writers: seq<nat>, log: seq<Package>, counted: nat, dequeued: nat)
    requires Tickets(r, writers, log, counted, dequeued) && counted < |log| && r.size + 1 < UINT_RANGE
    ensures InBounds(r) && Tickets(CountIn(r), writers, log, counted + 1, dequeued)
  {
    ModStep(counted, r.Capacity());
  }

  lemma TicketsDequeue(r: Ring, writers: seq<nat>, log: seq<Package>, counted: nat, dequeued: nat)
    requires Tickets(r, writers, log, counted, dequeued) && 0 < r.size < UINT_RANGE
    ensures InBounds(r) && Tickets(Dequeue(r), writers, log, counted, dequeued + 1)
  {
    ModStep(dequeued, r.Capacity());
  }

  /** Element `i` of the queue is in the slot of ticket `dequeued + i`. */
  lemma SlotOfTicket(r: Ring, dequeued: nat, i: nat)
    requires r.Capacity() > 0 && r.head == dequeued % r.Capacity()
    ensures QueueSlot(r, i) == (dequeued + i) % r.Capacity()
  {
    ModAdd(dequeued, i, r.Capacity());
  }

  /** The ring refines an unbounded queue: while nothing has been overwritten it holds exactly the
      counted packages that have not been handed out, oldest first. */
  lemma QueueIsPending(r: Ring, writers: seq<nat>, log: seq<Package>, counted: nat, dequeued: nat)
    requires Tickets(r, writers, log, counted, dequeued) && |log| - dequeued <= r.Capacity() < UINT_RANGE
    ensures Consistent(r) && Queue(r) == log[dequeued..counted]
  {
    if r.Capacity() > 0 {
      SlotOfTicket(r, dequeued, r.size);
      forall i | 0 <= i < r.size
        ensures Queue(r)[i] == log[dequeued..counted][i]
      {
        SlotOfTicket(r, dequeued, i);
        assert log[dequeued..counted][i] == log[dequeued + i];
      }
    }
  }

  /** What is in the slot of a package that has been handed out: the package of the ticket that went
      into it last. This is the one handed out until the tickets behind it fill the ring, and a later
      one from then on. */
  lemma HandedOutSlot(r: Ring, writers: seq<nat>, log: seq<Package>, counted: nat, dequeued: nat)
    requires Tickets(r, writers, log, counted, dequeued) && dequeued > 0 && r.Capacity() > 0
    ensures var c, ticket := r.Capacity(), dequeued - 1; var writer := writers[ticket % c];
            && ticket <= writer < |log| && r.slots[ticket % c] == log[writer]
            && (writer == ticket <==> |log| - dequeued < c)
  {
    var c := r.Capacity();
    var last := LastTicketOf(dequeued - 1, |log|, c);
    assert writers[last % c] == last;
  }

  /** The last ticket below `n` that shares the slot of ticket `t`. */
  lemma {:induction false} LastTicketOf(t: nat, n: nat, c: nat) returns (last: nat)
    requires c > 0 && t < n
    ensures last % c == t % c && t <= last < n <= last + c
    ensures last == t <==> n <= t + c
    decreases n - t
  {
    if t + c < n {
      ModPeriod(t, c);
      last := LastTicketOf(t + c, n, c);
    } else {
      last := t;
    }
  }
}
