/** What the protocol promises its users, over all interleavings. */
module ProtocolResults {
  import opened Structures
  import opened Rings
  import opened Protocol
  import opened ProtocolInvariant

  /** With one submitter or many: no access outside the buffer and no division by zero, whatever the
      capacities; at most `S - 1` packages too many in a ring, the one being copied included; and no
      dequeue from an empty ring. */
  lemma CheckThenAct(run: Run, i: nat, p: nat)
    requires run.Valid() && i < |run.states| && p < |run.states[i].pools|
    ensures var s := run.states[i]; var pool := s.pools[p];
            && !s.fault
            && pool.ring.size + (if pool.CopyUnderWay() then 1 else 0) <= pool.ring.Capacity() + |s.threads| - 1
            && (WorkerEnabled(pool, TakePackage) ==> pool.ring.size > 0)
  {
    RunKeeps(run, i);
    var s := run.states[i];
    assert PoolInv(s.pools[p], p);
    Occupancy(s, p);
  }

  /** Every ring refines an unbounded queue: the counters are the numbers of packages that were counted
      in and came out, modulo the capacity; only the package being copied is not counted yet; and as long
      as nothing has been overwritten the ring holds exactly the packages counted and not dequeued. */
  lemma RingRefinesQueue(run: Run, i: nat, p: nat)
    requires run.Valid() && i < |run.states| && p < |run.states[i].pools|
    ensures var s := run.states[i]; var pool := s.pools[p]; var ring := pool.ring;
            && pool.dequeued <= pool.counted <= |pool.accepted| <= pool.counted + 1
            && (pool.counted < |pool.accepted| ==>
                  exists t :: 0 <= t < |s.threads| && s.threads[t] == Copied(p, pool.accepted[pool.counted]))
            && ring.size == pool.counted - pool.dequeued
            && (ring.Capacity() > 0 ==>
                  ring.head == pool.dequeued % ring.Capacity() && ring.tail == pool.counted % ring.Capacity())
            && (ring.Capacity() == 0 ==> pool.accepted == [])
            && (|pool.accepted| - pool.dequeued <= ring.Capacity() ==>
                  Queue(ring) == pool.accepted[pool.dequeued..pool.counted])
  {
    RunKeeps(run, i);
    var s := run.states[i];
    var pool := s.pools[p];
    assert PoolInv(pool, p) && RoomInv(s, p) && LockInv(s, p);
    if pool.counted < |pool.accepted| {
      assert ThreadInv(s, s.lock.t);
    }
    if |pool.accepted| - pool.dequeued <= pool.ring.Capacity() {
      QueueIsPending(pool.ring, pool.writers, pool.accepted, pool.counted, pool.dequeued);
    }
  }

  /** What one step does to the queue of pool `q`. */
  function NextQueue(queue: seq<Package>, threads: seq<Thread>, step: Step, q: nat): seq<Package> {
    match step
    case Count(t) =>
      if t < |threads| && threads[t].Copied? && threads[t].pool == q then queue + [threads[t].task] else queue
    case Work(p, TakePackage) => if p == q && queue != [] then queue[1..] else queue
    case _ => queue
  }

  /** The tasks counted in and not yet dequeued. */
  function Pending(pool: Pool): seq<Package> {
    if pool.dequeued <= pool.counted <= |pool.accepted| then pool.accepted[pool.dequeued..pool.counted] else []
  }

  lemma CopyPending(s: State, t: nat, q: nat)
    requires Inv(s) && Enabled(s, Copy(t)) && q < |s.pools|
    ensures |Apply(s, Copy(t)).pools| == |s.pools|
    ensures Pending(Apply(s, Copy(t)).pools[q]) == Pending(s.pools[q])
  {
    CopyEffect(s, t);
    AppendPending(s.pools[s.threads[t].pool], s.threads[t].task);
  }

  lemma AppendPending(pool: Pool, task: Package)
    requires InBounds(pool.ring) && pool.counted == |pool.accepted|
    ensures Pending(CopiedIn(pool, task)) == Pending(pool)
  {
  }

  lemma CountPending(s: State, t: nat, q: nat)
    requires Inv(s) && Enabled(s, Count(t)) && q < |s.pools|
    ensures |Apply(s, Count(t)).pools| == |s.pools|
    ensures Pending(Apply(s, Count(t)).pools[q]) == NextQueue(Pending(s.pools[q]), s.threads, Count(t), q)
  {
    CountEffect(s, t);
    CountedPending(s.pools[s.threads[t].pool]);
  }

  lemma CountedPending(pool: Pool)
    requires InBounds(pool.ring) && pool.dequeued <= pool.counted < |pool.accepted|
    ensures Pending(CountedIn(pool)) == Pending(pool) + [pool.accepted[pool.counted]]
  {
  }

  lemma WorkPending(pool: Pool, w: WorkerStep, p: nat)
    requires PoolInv(pool, p) && pool.ring.size < UINT_RANGE && WorkerEnabled(pool, w)
    ensures !WorkerFaults(pool, w)
    ensures Pending(WorkerNext(pool, w, p)) == if w.TakePackage? then Pending(pool)[1..] else Pending(pool)
  {
    WorkerKeeps(pool, w, p);
  }

  /** The steps that are neither a worker's nor in a critical section leave the pools alone, apart from
      their signals. */
  lemma OthersKeepPools(s: State, step: Step, p: nat)
    requires Enabled(s, step) && !step.Work? && !step.Copy? && !step.Count? && p < |s.pools|
    ensures |Apply(s, step).pools| == |s.pools|
    ensures Apply(s, step).pools[p].(pending := {}) == s.pools[p].(pending := {})
  {
  }

  /** Each step of the protocol is a step of a scheduler with unbounded queues, or changes no queue. */
  lemma StepRefinesQueues(s: State, step: Step, q: nat)
    requires Inv(s) && Enabled(s, step) && q < |s.pools|
    ensures |Apply(s, step).pools| == |s.pools|
    ensures Pending(Apply(s, step).pools[q]) == NextQueue(Pending(s.pools[q]), s.threads, step, q)
  {
    match step {
      case Copy(t) =>
        CopyPending(s, t, q);
      case Count(t) =>
        CountPending(s, t, q);
      case Work(p, w) =>
        assert PoolInv(s.pools[p], p) && RoomInv(s, p);
        WorkPending(s.pools[p], w, p);
      case _ =>
        OthersKeepPools(s, step, q);
    }
  }

  /** No package has gone into a slot that was still in use. */
  predicate Fits(pool: Pool) {
    pool.ring.size + (if pool.CopyUnderWay() then 1 else 0) <= pool.ring.Capacity()
  }

  lemma RingIsPending(s: State, q: nat)
    requires Inv(s) && q < |s.pools| && Fits(s.pools[q])
    ensures Queue(s.pools[q].ring) == Pending(s.pools[q])
  {
    var pool := s.pools[q];
    assert PoolInv(pool, q) && RoomInv(s, q);
    QueueIsPending(pool.ring, pool.writers, pool.accepted, pool.counted, pool.dequeued);
  }

  /** The rings themselves are these queues, in every step of every run that does not start or end with
      an overflow. */
  lemma RunRefinesQueues(run: Run, i: nat, q: nat)
    requires run.Valid() && i < |run.steps| && q < |run.states[i].pools| && Fits(run.states[i].pools[q])
    ensures |run.states[i + 1].pools| == |run.states[i].pools|
    ensures Fits(run.states[i + 1].pools[q]) ==>
              Queue(run.states[i + 1].pools[q].ring)
              == NextQueue(Queue(run.states[i].pools[q].ring), run.states[i].threads, run.steps[i], q)
  {
    assert run.StepAt(i);
    RunKeeps(run, i);
    RunKeeps(run, i + 1);
    SamePoolCount(run.states[i], run.steps[i]);
    StepRefinesQueues(run.states[i], run.steps[i], q);
    RingIsPending(run.states[i], q);
    if Fits(run.states[i + 1].pools[q]) {
      RingIsPending(run.states[i + 1], q);
    }
  }

  /** With one submitter there is no overflow at all. */
  lemma SoleFits(run: Run, i: nat, q: nat)
    requires run.Valid() && i < |run.states| && |run.states[i].threads| == 1 && q < |run.states[i].pools|
    ensures Fits(run.states[i].pools[q])
  {
    CheckThenAct(run, i, q);
  }

  /** The exact lifetime of a package a worker holds: the package that went last into its slot is its
      own as long as the ring is not full, and a later one from then on. */
  lemma InFlightSlot(run: Run, i: nat, p: nat)
    requires run.Valid() && i < |run.states| && p < |run.states[i].pools|
    requires run.states[i].pools[p].worker.HoldsPackage()
    ensures var pool := run.states[i].pools[p]; var slot := pool.worker.slot;
            && pool.finished == pool.dequeued - 1
            && slot < pool.ring.Capacity() == |pool.writers|
            && pool.finished <= pool.writers[slot] < |pool.accepted|
            && pool.ring.slots[slot] == pool.accepted[pool.writers[slot]]
            && (pool.writers[slot] == pool.finished <==> !pool.Full())
            && pool.ring.slots[slot].index == p
  {
    RunKeeps(run, i);
    assert PoolInv(run.states[i].pools[p], p);
    LookRight(run.states[i].pools[p], p);
  }

  predicate FullInFlight(pool: Pool) {
    pool.worker.HoldsPackage() && pool.Full()
  }

  lemma SamePoolCount(s: State, step: Step)
    requires Enabled(s, step)
    ensures |Apply(s, step).pools| == |s.pools| && |Apply(s, step).threads| == |s.threads|
  {
  }

  /** The guard of the failure: a package in flight loses its slot exactly when a submitter copies a
      package into a ring with one free slot left, or at once when it is taken from a ring that has
      overflowed. */
  lemma SlotIsLost(s: State, step: Step, p: nat)
    requires Inv(s) && Enabled(s, step) && p < |s.pools| && !FullInFlight(s.pools[p])
    ensures |Apply(s, step).pools| == |s.pools|
    ensures FullInFlight(Apply(s, step).pools[p]) <==>
              || (step.Copy? && s.threads[step.t].pool == p && s.pools[p].worker.HoldsPackage()
                  && s.pools[p].ring.size + 1 == s.pools[p].ring.Capacity())
              || (step == Work(p, TakePackage) && s.pools[p].ring.size > s.pools[p].ring.Capacity())
  {
    match step {
      case Work(q, w) =>
        WorkEffect(s, q, w);
        if q == p {
          WorkLosesSlot(s, p, w);
        }
      case Copy(_) => SectionLosesSlot(s, step, p);
      case Count(_) => SectionLosesSlot(s, step, p);
      case _ => OthersKeepPools(s, step, p);
    }
  }

  lemma SectionLosesSlot(s: State, step: Step, p: nat)
    requires Inv(s) && Enabled(s, step) && (step.Copy? || step.Count?) && p < |s.pools| && !FullInFlight(s.pools[p])
    ensures |Apply(s, step).pools| == |s.pools|
    ensures FullInFlight(Apply(s, step).pools[p]) <==>
              && step.Copy? && s.threads[step.t].pool == p && s.pools[p].worker.HoldsPackage()
              && s.pools[p].ring.size + 1 == s.pools[p].ring.Capacity()
  {
    if step.Count? {
      CountEffect(s, step.t);
    } else {
      CopyEffect(s, step.t);
      if s.threads[step.t].pool == p {
        CopyLosesSlot(s.pools[p], s.threads[step.t].task);
      }
    }
  }

  lemma CopyLosesSlot(pool: Pool, task: Package)
    requires InBounds(pool.ring) && pool.counted == |pool.accepted| && !FullInFlight(pool)
    ensures FullInFlight(CopiedIn(pool, task)) <==>
              pool.worker.HoldsPackage() && pool.ring.size + 1 == pool.ring.Capacity()
  {
  }

  lemma WorkLosesSlot(s: State, p: nat, w: WorkerStep)
    requires Inv(s) && Enabled(s, Work(p, w)) && !FullInFlight(s.pools[p])
    ensures !WorkerFaults(s.pools[p], w)
    ensures FullInFlight(WorkerNext(s.pools[p], w, p)) <==>
              w.TakePackage? && s.pools[p].ring.size > s.pools[p].ring.Capacity()
  {
    WorkEffect(s, p, w);
    assert PoolInv(s.pools[p], p) && LockInv(s, p);
  }

  /** Every call is made for the task whose turn it is, and everything its callback reads is that task. */
  predicate RunsInOrder(pool: Pool) {
    && (forall k :: 0 <= k < |pool.calls| ==> pool.calls[k].writer == k)
    && (forall k :: 0 <= k < |pool.looks| ==> pool.looks[k].writer == pool.looks[k].ticket)
  }

  predicate NeverReadFull(pool: Pool) {
    && (forall k :: 0 <= k < |pool.calls| ==> !pool.calls[k].full)
    && (forall k :: 0 <= k < |pool.looks| ==> !pool.looks[k].full)
  }

  /** A worker runs the accepted tasks in order, each once, and each callback finds its own package in
      its slot however often it looks, exactly if none of these reads is made while the ring is full. */
  lemma StartsInOrder(run: Run, i: nat, p: nat)
    requires run.Valid() && i < |run.states| && p < |run.states[i].pools|
    ensures var pool := run.states[i].pools[p];
            && |pool.calls| <= |pool.accepted|
            && (forall k :: 0 <= k < |pool.calls| ==>
                  pool.calls[k].ticket == k <= pool.calls[k].writer < |pool.accepted|
                  && pool.calls[k].contents == pool.accepted[pool.calls[k].writer])
            && (forall k :: 0 <= k < |pool.looks| ==>
                  pool.looks[k].ticket <= pool.looks[k].writer < |pool.accepted|
                  && pool.looks[k].ticket < |pool.calls|
                  && pool.looks[k].contents == pool.accepted[pool.looks[k].writer])
            && (RunsInOrder(pool) <==> NeverReadFull(pool))
  {
    RunKeeps(run, i);
    var pool := run.states[i].pools[p];
    assert PoolInv(pool, p);
    forall k | 0 <= k < |pool.calls|
      ensures ReadRight(pool.accepted, pool.calls[k]) && pool.calls[k].ticket == k
    {
    }
    forall k | 0 <= k < |pool.looks|
      ensures ReadRight(pool.accepted, pool.looks[k]) && pool.looks[k].ticket < |pool.calls|
    {
    }
  }

  /** No two tasks are the same but for the callback. */
  predicate Distinct(tasks: seq<Package>) {
    forall i, j :: 0 <= i < j < |tasks| ==> Arguments(tasks[i]) != Arguments(tasks[j])
  }

  /** The fields of a package other than the callback, which is read before the call. */
  function Arguments(p: Package): Package {
    p.(callback := NULL)
  }

  /** A read of a full ring finds the arguments of another task. */
  lemma LateDiffers(accepted: seq<Package>, r: Read)
    requires ReadRight(accepted, r) && Distinct(accepted)
    ensures Arguments(r.contents) == Arguments(accepted[r.ticket]) <==> !r.full
  {
    if r.full {
      assert Arguments(accepted[r.ticket]) != Arguments(accepted[r.writer]);
    }
  }

  /** The ring of pool `p` is never full while its worker holds a package. */
  predicate NeverFullInFlight(run: Run, p: nat) {
    forall i :: 0 <= i < |run.states| && p < |run.states[i].pools| ==> !FullInFlight(run.states[i].pools[p])
  }

  /** Which is exactly when the slot of a package stays its own all the time its worker holds it, so
      that no read a callback could have made would have found anything else. */
  lemma KeptThroughout(run: Run, p: nat)
    requires run.Valid()
    ensures NeverFullInFlight(run, p) <==>
            forall i :: 0 <= i < |run.states| && p < |run.states[i].pools| ==> OwnsSlot(run.states[i].pools[p])
  {
    forall i | 0 <= i < |run.states| && p < |run.states[i].pools|
      ensures OwnsSlot(run.states[i].pools[p]) <==> !FullInFlight(run.states[i].pools[p])
    {
      if run.states[i].pools[p].worker.HoldsPackage() {
        InFlightSlot(run, i, p);
      }
    }
  }

  /** The package a worker holds is the last that went into its slot, and is still there. */
  predicate OwnsSlot(pool: Pool) {
    pool.worker.HoldsPackage() ==>
      && pool.worker.slot < pool.ring.Capacity() == |pool.writers|
      && pool.writers[pool.worker.slot] == pool.finished < |pool.accepted|
      && pool.ring.slots[pool.worker.slot] == pool.accepted[pool.finished]
  }

  predicate WorkerReadFull(pool: Pool) {
    (pool.worker.Loaded? || pool.worker.Stamped?) && pool.worker.read.full
  }

  predicate NoneLate(pool: Pool) {
    NeverReadFull(pool) && !WorkerReadFull(pool)
  }

  lemma LateWork(pool: Pool, w: WorkerStep, p: nat)
    requires WorkerEnabled(pool, w) && !WorkerFaults(pool, w) && NoneLate(pool) && !FullInFlight(pool)
    ensures NoneLate(WorkerNext(pool, w, p))
  {
  }

  lemma LateSection(s: State, step: Step, p: nat)
    requires Inv(s) && Enabled(s, step) && (step.Copy? || step.Count?) && p < |s.pools| && NoneLate(s.pools[p])
    ensures |Apply(s, step).pools| == |s.pools| && NoneLate(Apply(s, step).pools[p])
  {
    if step.Copy? {
      CopyEffect(s, step.t);
    } else {
      CountEffect(s, step.t);
    }
  }

  lemma LateStep(s: State, step: Step, p: nat)
    requires Inv(s) && Enabled(s, step) && p < |s.pools| && NoneLate(s.pools[p]) && !FullInFlight(s.pools[p])
    ensures |Apply(s, step).pools| == |s.pools| && NoneLate(Apply(s, step).pools[p])
  {
    match step {
      case Work(q, w) =>
        WorkEffect(s, q, w);
        if q == p {
          LateWork(s.pools[p], w, p);
        }
      case Copy(_) => LateSection(s, step, p);
      case Count(_) => LateSection(s, step, p);
      case _ => OthersKeepPools(s, step, p);
    }
  }

  lemma {:induction false} NoLateRead(run: Run, i: nat, p: nat)
    requires run.Valid() && i < |run.states| && p < |run.states[i].pools| && NeverFullInFlight(run, p)
    ensures NoneLate(run.states[i].pools[p])
  {
    if i == 0 {
      assert InitialPool(run.states[0].pools[p]);
    } else {
      var s, step := run.states[i - 1], run.steps[i - 1];
      assert run.StepAt(i - 1);
      SamePoolCount(s, step);
      NoLateRead(run, i - 1, p);
      RunKeeps(run, i - 1);
      LateStep(s, step, p);
    }
  }

  /** Call number `k` is that of task `k`, and all its callback reads is that task. */
  predicate RunsAccepted(pool: Pool) {
    && |pool.calls| <= |pool.accepted|
    && (forall k :: 0 <= k < |pool.calls| ==> pool.calls[k].contents == pool.accepted[k])
    && (forall k :: 0 <= k < |pool.looks| ==>
          pool.looks[k].ticket < |pool.calls| && pool.looks[k].contents == pool.accepted[pool.looks[k].ticket])
  }

  /** In a run in which the ring never becomes full while a package is held, the tasks run are a prefix
      of the tasks accepted, each once, and no callback ever sees another task. */
  lemma PrefixOfAccepted(run: Run, i: nat, p: nat)
    requires run.Valid() && i < |run.states| && p < |run.states[i].pools| && NeverFullInFlight(run, p)
    ensures RunsInOrder(run.states[i].pools[p]) && RunsAccepted(run.states[i].pools[p])
  {
    NoLateRead(run, i, p);
    StartsInOrder(run, i, p);
  }
}
