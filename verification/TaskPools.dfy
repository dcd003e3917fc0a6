/** One pool: a queue of packages drained by one worker thread, and the key it is chosen by. */
module TaskPools {
  import opened Structures
  import opened Rings
  import Arithmetic

  /** What the queue operation returns a pointer to: a slot of the buffer, or the argument. */
  datatype PackagePointer = Slot(slot: nat) | Argument

  /** What a dequeue is passed instead of a package. */
  const NO_PACKAGE := Package(0, 0, NULL, 0, 0, 0, 0, 0)

  class TaskPool {
    const index: nat
    const reserved: nat
    const package: array<Package>
    var size: nat
    var tail: nat
    var head: nat
    var dheapPriority: Long

    /** The queue fields as one value. */
    ghost function View(): Ring
      reads this, package
    {
      Ring(package[..], head, tail, size)
    }

    ghost predicate Valid()
      reads this, package
    {
      package.Length == reserved && Consistent(View())
    }

    /** The waiting packages, oldest first. */
    ghost function Waiting(): seq<Package>
      requires Valid()
      reads this, package
    {
      Queue(View())
    }

    /** The state a pool is created in. */
    constructor (index: nat, maxPackagesPool: nat)
      requires maxPackagesPool < UINT_RANGE
      ensures Valid() && fresh(package)
      ensures this.index == index && reserved == maxPackagesPool
      ensures Waiting() == [] && dheapPriority == 0
    {
      this.index := index;
      reserved := maxPackagesPool;
      package := new Package[maxPackagesPool];
      head, tail, size := 0, 0, 0;
      dheapPriority := 0;
      new;
      Arithmetic.ModSmall(0, if maxPackagesPool == 0 then 1 else maxPackagesPool);
    }

    /** The body of the critical section. It checks nothing, so the caller must know that the
        counters are indices of the buffer; in particular that the buffer is not empty. */
    method EnDeQueue(dequeue: bool, enqueue: Package) returns (pointer: PackagePointer)
      requires InBounds(View()) && package.Length == reserved < UINT_RANGE
      modifies this`size, this`head, this`tail, package
      ensures View() == if dequeue then Dequeue(old(View())) else Rings.Enqueue(old(View()), enqueue)
      ensures pointer == if dequeue then Slot(old(head)) else Argument
      // The size wraps around like an integer of 32 bits.
      ensures old(size) <= 0xFFFF_FFFF ==>
                size == if dequeue then (if old(size) == 0 then 0xFFFF_FFFF else old(size) - 1)
                        else if old(size) == 0xFFFF_FFFF then 0 else old(size) + 1
      // With room, an enqueue is the append of an unbounded queue.
      ensures old(Valid()) && !dequeue && old(size) < reserved ==>
                Valid() && Waiting() == old(Waiting()) + [enqueue]
      // With a package waiting, a dequeue takes the oldest one and leaves it in the slot it returns.
      ensures old(Valid()) && dequeue && old(size) > 0 ==>
                && Valid() && Waiting() == old(Waiting())[1..]
                && package[pointer.slot] == old(Waiting())[0]
    {
      if Valid() && !dequeue && size < reserved {
        EnqueueAppends(View(), enqueue);
      }
      if Valid() && dequeue && size > 0 {
        DequeueRemovesFirst(View());
      }
      if dequeue {
        size := Decrement(size);
        pointer := Slot(head);
        head := (head + 1) % reserved;
      } else {
        pointer := Argument;
        package[tail] := enqueue;
        tail := (tail + 1) % reserved;
        size := Increment(size);
      }
    }

    /** One turn of the worker's loop with work to do, when no other thread takes a step: the oldest
        package is taken, its callback is read and its index written in the slot, and the callback gets
        that slot. The key becomes the time that took. */
    method ExecuteNext(elapsed: Long) returns (invoked: Package)
      requires Valid() && size > 0
      modifies this`size, this`head, this`tail, this`dheapPriority, package
      ensures Valid() && Waiting() == old(Waiting())[1..]
      ensures invoked == old(Waiting())[0].(index := index)
      ensures dheapPriority == elapsed
    {
      ghost var before := View();
      DequeueRemovesFirst(before);
      var pointer := EnDeQueue(true, NO_PACKAGE);
      var callback := package[pointer.slot].callback;
      package[pointer.slot] := package[pointer.slot].(index := index);
      HandedOutIsFree(before, package[pointer.slot]);
      assert View() == Dequeue(before).(slots := before.slots[before.head := package[pointer.slot]]);
      invoked := package[pointer.slot].(callback := callback);
      dheapPriority := elapsed;
    }

    /** The worker's loop up to its wait for a signal, when no other thread takes a step: every waiting
        package is run once, oldest first, and the idle pool is the most attractive one. */
    method ExecuteUntilIdle() returns (invoked: seq<Package>)
      requires Valid()
      modifies this`size, this`head, this`tail, this`dheapPriority, package
      ensures Valid() && Waiting() == [] && dheapPriority == 0
      ensures |invoked| == |old(Waiting())|
      ensures forall i :: 0 <= i < |invoked| ==> invoked[i] == old(Waiting())[i].(index := index)
    {
      invoked := [];
      while size > 0
        invariant Valid() && |invoked| <= |old(Waiting())| && Waiting() == old(Waiting())[|invoked|..]
        invariant forall i :: 0 <= i < |invoked| ==> invoked[i] == old(Waiting())[i].(index := index)
        decreases |old(Waiting())| - |invoked|
      {
        var elapsed: Long := *;
        var next := ExecuteNext(elapsed);
        invoked := invoked + [next];
      }
      dheapPriority := 0;
    }
  }
}
