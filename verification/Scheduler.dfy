/** The scheduler object: its pools, the heap of pools and the submission of tasks, for one call that
    no worker thread interrupts except, if `racing`, by writing keys. The interleaved view of the
    same steps is module Protocol. */
module Scheduler {
  import opened Structures
  import opened Rings
  import opened HeapOrder
  import opened HeapReference
  import opened TaskPools
  import opened LoadBalance
  import Heapify

  /** The caller's package, which the call stamps with the index of the pool. */
  class TaskPackage {
    var value: Package
  }

  class TaskSch {
    const num: nat
    const pool: seq<TaskPool>
    const dheap: array<TaskPool>
    var initialized: bool
    var running: bool

    ghost predicate Valid()
      reads this, dheap, pool, set p | p in pool :: p.package
    {
      && num == |pool| == dheap.Length
      && multiset(dheap[..]) == multiset(pool)
      && (forall i :: 0 <= i < num ==> pool[i].index == i && pool[i].Valid())
      && (forall i, j :: 0 <= i < j < num ==> pool[i].package != pool[j].package)
      && (forall i :: 0 <= i < num ==> pool[i].package as object != dheap)
    }

    /** The sizes and keys of the pools. */
    ghost function Loads(): (loads: seq<Load>)
      reads pool
      ensures |loads| == |pool|
      ensures forall i :: 0 <= i < |pool| ==> loads[i] == Load(pool[i].size, pool[i].dheapPriority)
    {
      seq(|pool|, i requires 0 <= i < |pool| reads pool => Load(pool[i].size, pool[i].dheapPriority))
    }

    /** The given keys in the order in which the heap lists the pools. */
    ghost function HeapOf(loads: seq<Load>): (keys: seq<int>)
      reads this, dheap, dheap[..]
      ensures |keys| == dheap.Length
      ensures forall i :: 0 <= i < dheap.Length && dheap[i].index < |loads| ==>
                keys[i] == loads[dheap[i].index].priority
    {
      seq(dheap.Length, i requires 0 <= i < dheap.Length reads this, dheap, dheap[..]
          => if dheap[i].index < |loads| then loads[dheap[i].index].priority else 0)
    }

    /** The abstract scheduler: one sequence of waiting packages for every pool. */
    ghost function Queues(): (queues: seq<seq<Package>>)
      requires Valid()
      reads this, dheap, pool, set p | p in pool :: p.package
      ensures |queues| == |pool|
      ensures forall i :: 0 <= i < |pool| ==> queues[i] == pool[i].Waiting()
    {
      seq(|pool|, i requires 0 <= i < |pool| && Valid() reads this, dheap, pool, set p | p in pool :: p.package
          => pool[i].Waiting())
    }

    /** The loop that sets up the pools. */
    static method CreatePools(num: nat, maxPackagesPool: nat) returns (pools: seq<TaskPool>)
      requires maxPackagesPool < UINT_RANGE
      ensures |pools| == num
      ensures forall j :: 0 <= j < num ==> fresh(pools[j]) && fresh(pools[j].package)
      ensures forall j :: 0 <= j < num ==> pools[j].index == j && pools[j].Valid() && pools[j].Waiting() == []
      ensures forall j :: 0 <= j < num ==> pools[j].reserved == maxPackagesPool && pools[j].dheapPriority == 0
      ensures forall j, k :: 0 <= j < k < num ==> pools[j].package != pools[k].package
    {
      pools := [];
      for i := 0 to num
        invariant |pools| == i
        invariant forall j :: 0 <= j < i ==> fresh(pools[j]) && fresh(pools[j].package)
        invariant forall j :: 0 <= j < i ==> pools[j].index == j && pools[j].Valid() && pools[j].Waiting() == []
        invariant forall j :: 0 <= j < i ==> pools[j].reserved == maxPackagesPool && pools[j].dheapPriority == 0
        invariant forall j, k :: 0 <= j < k < i ==> pools[j].package != pools[k].package
      {
        var p := new TaskPool(i, maxPackagesPool);
        pools := pools + [p];
      }
    }

    /** The pools as they are created: empty queues, equal keys, the heap listing them in order. */
    constructor (num: nat, maxPackagesPool: nat)
      requires num > 0 && maxPackagesPool < UINT_RANGE
      ensures Valid() && initialized && !running
      ensures |pool| == num && dheap[..] == pool
      ensures forall i :: 0 <= i < num ==> pool[i].reserved == maxPackagesPool && pool[i].Waiting() == []
      ensures LoadBalance.Fresh(Loads(), 0)
    {
      this.num := num;
      var pools := CreatePools(num, maxPackagesPool);
      pool := pools;
      dheap := new TaskPool[num](i requires 0 <= i < num => pools[i]);
      initialized, running := true, false;
      new;
      assert dheap[..] == pool;
    }

    /** Rebuild the heap of pools, from the last node that can have a child to the root. */
    method SchHeapify(racing: bool) returns (ghost descents: nat)
      requires num > 0 && dheap.Length == num
      modifies dheap
      ensures multiset(dheap[..]) == multiset(old(dheap[..]))
      ensures !racing ==> IsHeap(Heapify.Keys(dheap), Heapify.SCH_HEAP_BREATH)
      ensures !racing ==> IsHeap(Heapify.Keys(dheap), 4)
      ensures !racing ==>
                (dheap[..], Heapify.Keys(dheap)) == Rebuilt(old(dheap[..]), old(Heapify.Keys(dheap)), 4, (num - 1) / 4 + 1)
      ensures !racing ==> forall j :: 0 <= j < num ==> dheap[0].dheapPriority <= dheap[j].dheapPriority
      ensures !racing && old(IsHeap(Heapify.Keys(dheap), Heapify.SCH_HEAP_BREATH)) ==> dheap[..] == old(dheap[..])
      ensures descents <= num - 1
    {
      var k := Heapify.SCH_HEAP_BREATH;
      var n := num;
      var d := (n - 1) / k;
      descents := 0;
      ghost var goal := Rebuilt(dheap[..], Heapify.Keys(dheap), k, d + 1);
      NoChildrenBeyond(Heapify.Keys(dheap), k, d);
      for i := d + 1 downto 0
        invariant multiset(dheap[..]) == multiset(old(dheap[..]))
        invariant !racing ==> HeapFrom(Heapify.Keys(dheap), k, i)
        invariant !racing ==> Rebuilt(dheap[..], Heapify.Keys(dheap), k, i) == goal
        invariant !racing && old(IsHeap(Heapify.Keys(dheap), k)) ==> dheap[..] == old(dheap[..])
        invariant descents + SumHeights(i, n, k) <= SumHeights(d + 1, n, k)
      {
        var moves := Heapify.RestoreDown(dheap, n, i, k, racing);
        descents := descents + moves;
      }
      SumHeightsMonotone(d + 1, n, n, k);
      SumHeightsLinear(n, k);
      if !racing {
        forall j | 0 <= j < num
          ensures dheap[0].dheapPriority <= dheap[j].dheapPriority
        {
          RootIsMin(Heapify.Keys(dheap), k, j);
        }
      }
    }

    lemma KeysAreLoads()
      requires Valid()
      ensures HeapOf(Loads()) == Heapify.Keys(dheap)
    {
      SamePools(dheap[..], pool);
      forall i | 0 <= i < num
        ensures HeapOf(Loads())[i] == Heapify.Keys(dheap)[i]
      {
        assert dheap[i] in dheap[..];
        assert dheap[i].index < num && pool[dheap[i].index] == dheap[i];
      }
    }

    /** The first thing a submission does after its checks. */
    method Rebuild(racing: bool)
      requires Valid() && num > 0
      modifies dheap
      ensures Valid() && Queues() == old(Queues()) && (!racing ==> Loads() == old(Loads()))
      ensures !racing ==> IsHeap(HeapOf(Loads()), 4)
      ensures !racing ==> forall j :: 0 <= j < num ==> dheap[0].dheapPriority <= dheap[j].dheapPriority
    {
      var _ := SchHeapify(racing);
      SamePools(dheap[..], pool);
      KeysAreLoads();
    }

    /** The requested pool, or the one at the root of the heap, which is rebuilt in any case. */
    method ChoosePool(pPool: TaskPool?, racing: bool) returns (p: TaskPool)
      requires Valid() && num > 0
      requires pPool != null ==> pPool in pool
      modifies dheap
      ensures Valid() && p.index < num && pool[p.index] == p
      ensures Queues() == old(Queues()) && (!racing ==> Loads() == old(Loads()))
      ensures pPool != null ==> p == pPool
      ensures pPool == null && !racing ==> IsLeast(Loads(), p.index)
      // The heap is rebuilt for an explicit pool, too.
      ensures !racing ==> IsHeap(HeapOf(Loads()), 4)
    {
      Rebuild(racing);
      SamePools(dheap[..], pool);
      if pPool == null {
        p := dheap[0];
        assert p in dheap[..];
        forall j | 0 <= j < num && !racing
          ensures p.dheapPriority <= pool[j].dheapPriority
        {
          assert pool[j] in dheap[..];
        }
      } else {
        p := pPool;
      }
    }

    /** Append to the queue of pool `target` and raise its key; the other pools stay as they are. */
    method Accept(target: nat, package: Package)
      requires Valid() && target < num && pool[target].size < pool[target].reserved
      requires pool[target].dheapPriority <= LONG_MAX - INCREMENT
      modifies pool[target], pool[target].package
      ensures Valid()
      ensures Queues() == old(Queues())[target := old(Queues()[target]) + [package]]
      ensures Loads() == old(Loads())[target := Bump(old(Loads())[target])]
      ensures pool[target].dheapPriority == old(pool[target].dheapPriority) + 1000
    {
      var p := pool[target];
      ghost var loads := Loads()[target := Bump(Loads()[target])];
      var _ := p.EnDeQueue(false, package);
      p.dheapPriority := p.dheapPriority + INCREMENT;
      assert p.Valid() && p.size == old(p.size) + 1;
      forall j | 0 <= j < num
        ensures j != target ==> pool[j] != p && pool[j].Valid() && pool[j].Waiting() == old(pool[j].Waiting())
        ensures Loads()[j] == loads[j]
      {
        assert j < target ==> pool[j].package != pool[target].package;
        assert pool[j].index == j;
      }
      assert Loads() == loads;
    }

    /** The same after the index of the pool has been written into the caller's package. */
    method StampAndAccept(package: TaskPackage, target: nat)
      requires Valid() && target < num && pool[target].size < pool[target].reserved
      requires pool[target].dheapPriority <= LONG_MAX - INCREMENT
      modifies package, pool[target], pool[target].package
      ensures Valid() && package.value == old(package.value).(index := target)
      ensures Queues() == old(Queues())[target := old(Queues()[target]) + [package.value]]
      ensures Loads() == old(Loads())[target := Bump(old(Loads())[target])]
      ensures forall loads: seq<Load> :: HeapOf(loads) == old(HeapOf(loads))
    {
      ghost var queues, loads := Queues(), Loads();
      package.value := package.value.(index := target);
      assert Valid() && Queues() == queues && Loads() == loads;
      Accept(target, package.value);
    }

    /** The part of a submission after its checks: choose a pool and append to its queue, unless it is
        full. The package goes to the requested pool, or else to a pool with the least key; it is appended
        exactly once and no other queue changes. */
    method Place(package: TaskPackage, pPool: TaskPool?, racing: bool) returns (accepted: bool, target: nat)
      requires Valid() && num > 0
      requires pPool != null ==> pPool in pool
      requires forall j :: 0 <= j < num ==> pool[j].dheapPriority <= LONG_MAX - INCREMENT
      modifies package, dheap, pool, set p | p in pool :: p.package
      ensures Valid() && target < num
      ensures pPool != null ==> pool[target] == pPool
      ensures pPool == null && !racing ==> IsLeast(old(Loads()), target)
      // The heap is one of breadth four for the keys before the increment.
      ensures !racing ==> IsHeap(HeapOf(old(Loads())), 4)
      ensures accepted <==> old(pool[target].size) < pool[target].reserved
      ensures package.value == if accepted then old(package.value).(index := target) else old(package.value)
      ensures Queues() == if accepted then old(Queues())[target := old(Queues()[target]) + [package.value]]
                          else old(Queues())
      ensures !racing ==>
                Loads() == if accepted then old(Loads())[target := Bump(old(Loads())[target])] else old(Loads())
    {
      var p := ChoosePool(pPool, racing);
      target := p.index;
      accepted := p.size < p.reserved;
      if accepted {
        StampAndAccept(package, target);
      }
    }

    /** Submit a task, to `pPool` or, if that is null, to a pool the heap chooses. The read of the
        pool's flag is `sleeping` and the result of raising the signal is `raised`. */
    method SchSubmitTask(package: TaskPackage?, pPool: TaskPool?, racing: bool, sleeping: bool, raised: int)
      returns (status: Status, ghost target: nat)
      requires Valid() && num > 0
      requires pPool != null ==> pPool in pool
      requires forall j :: 0 <= j < num ==> pool[j].dheapPriority <= LONG_MAX - INCREMENT
      modifies package, dheap, pool, set p | p in pool :: p.package
      ensures Valid() && target < num
      // The arguments and the state are checked before anything changes, the heap included.
      ensures status == InvalidState <==> !running || !initialized
      ensures status == InvalidArgument <==>
                running && initialized && (package == null || old(package.value.callback) == NULL)
      ensures status == InvalidState || status == InvalidArgument ==> dheap[..] == old(dheap[..])
      ensures status == PoolFull || status.Accepted() ==>
                && (pPool != null ==> pool[target] == pPool)
                && (pPool == null && !racing ==> IsLeast(old(Loads()), target))
                && (status.Accepted() <==> old(pool[target].size) < pool[target].reserved)
                && (!racing ==> IsHeap(HeapOf(old(Loads())), 4))
      ensures status == SignalError <==>
                status.Accepted() && pool[target].size <= 1 && sleeping && raised == 0
      // Refinement: an accepted task is appended once, to the target; otherwise no queue changes.
      ensures package != null ==>
                package.value == if status.Accepted() then old(package.value).(index := target) else old(package.value)
      ensures status.Accepted() ==>
                Queues() == old(Queues())[target := old(Queues()[target]) + [old(package.value).(index := target)]]
      ensures !status.Accepted() ==> Queues() == old(Queues())
      // The keys, unless workers write them too.
      ensures !racing && status.Accepted() ==> pool[target].dheapPriority == old(pool[target].dheapPriority) + 1000
      ensures !racing ==>
                Loads() == if status.Accepted() then old(Loads())[target := Bump(old(Loads())[target])] else old(Loads())
      ensures (status == PoolFull || status.Accepted()) && pPool == null && !racing ==>
                NullSubmit(old(Loads()), Loads(), pool[target].reserved, status.Accepted())
    {
      target := 0;
      if !running || !initialized {
        return InvalidState, target;
      }
      if package == null || package.value.callback == NULL {
        return InvalidArgument, target;
      }
      ghost var loads := Loads();
      var accepted, chosen := Place(package, pPool, racing);
      target := chosen;
      assert pPool == null && !racing ==> SubmitTo(loads, Loads(), pool[target].reserved, accepted, target);
      if !accepted {
        return PoolFull, target;
      }
      status := if pool[chosen].size <= 1 && sleeping && raised == 0 then SignalError else Ok;
    }

    /** A submission while the keys count the queued packages. */
    method SubmitBalanced(package: TaskPackage, reserved: nat, sleeping: bool) returns (accepted: bool)
      requires Valid() && num > 0 && running && initialized && package.value.callback != NULL
      requires reserved < UINT_RANGE && forall j :: 0 <= j < num ==> pool[j].reserved == reserved
      requires Balanced(Loads(), 0, reserved)
      modifies package, dheap, pool, set p | p in pool :: p.package
      ensures Valid() && Balanced(Loads(), 0, reserved) && package.value.callback != NULL
      ensures Total(Loads()) == old(Total(Loads())) + if accepted then 1 else 0
      ensures accepted <==> old(Total(Loads())) < num * reserved
    {
      ghost var before := Loads();
      forall j | 0 <= j < num
        ensures pool[j].dheapPriority <= LONG_MAX - INCREMENT
      {
        assert before[j].priority == INCREMENT * before[j].size;
      }
      var status, _ := SchSubmitTask(package, null, false, sleeping, 1);
      accepted := status.Accepted();
      BalancedStep(before, Loads(), 0, reserved, accepted);
    }

    /** One package submitted again and again, to whichever pools the scheduler chooses, before any
        worker takes a step: the copies spread evenly and fill every queue before one is refused. */
    method SubmitRepeatedly(package: TaskPackage, count: nat, reserved: nat, sleeping: bool)
      returns (accepted: nat)
      requires Valid() && num > 0 && running && initialized && package.value.callback != NULL
      requires reserved < UINT_RANGE && forall j :: 0 <= j < num ==> pool[j].reserved == reserved
      requires LoadBalance.Fresh(Loads(), 0)
      modifies package, dheap, pool, set p | p in pool :: p.package
      ensures Valid() && Balanced(Loads(), 0, reserved)
      ensures accepted == Total(Loads()) && accepted == Min(count, num * reserved)
    {
      accepted := 0;
      FreshIsBalanced(Loads(), 0, reserved);
      ghost var capacity := num * reserved;
      for i := 0 to count
        invariant Valid() && Balanced(Loads(), 0, reserved) && package.value.callback != NULL
        invariant accepted == Total(Loads()) && accepted == Min(i, capacity)
      {
        var placed := SubmitBalanced(package, reserved, sleeping);
        if placed {
          accepted := accepted + 1;
        }
      }
    }
  }

  lemma SamePools(a: seq<TaskPool>, b: seq<TaskPool>)
    requires multiset(a) == multiset(b)
    ensures forall p :: p in a <==> p in b
  {
    forall p: TaskPool
      ensures p in a <==> p in b
    {
      assert p in a <==> p in multiset(a);
      assert p in b <==> p in multiset(b);
    }
  }
}
