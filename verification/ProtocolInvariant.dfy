/** What every step of every interleaving keeps. */
module ProtocolInvariant {
  import opened Structures
  import opened Rings
  import opened Protocol

  /** A read finds an accepted package: that of its own ticket, or a later one exactly if the ring is
      full. */
  predicate ReadRight(accepted: seq<Package>, r: Read) {
    && r.ticket <= r.writer < |accepted| && r.contents == accepted[r.writer]
    && (r.writer == r.ticket <==> !r.full)
  }

  /** Call number `k` is for ticket `k`, and a callback reads only after it has been called. */
  predicate LogsRight(pool: Pool) {
    && (forall k :: 0 <= k < |pool.calls| ==> ReadRight(pool.accepted, pool.calls[k]) && pool.calls[k].ticket == k)
    && (forall k :: 0 <= k < |pool.looks| ==>
          ReadRight(pool.accepted, pool.looks[k]) && pool.looks[k].ticket < |pool.calls|)
  }

  predicate PoolInv(pool: Pool, p: nat) {
    var ring, w := pool.ring, pool.worker;
    && Tickets(ring, pool.writers, pool.accepted, pool.counted, pool.dequeued)
    && (w.SawWork? ==> ring.size > 0)
    && pool.finished == pool.dequeued - (if w.HoldsPackage() then 1 else 0)
    && |pool.calls| == pool.dequeued - (if w.Holding? || w.Loaded? || w.Stamped? then 1 else 0)
    && (w.HoldsPackage() ==>
          pool.dequeued > 0 && ring.Capacity() > 0 && w.slot == (pool.dequeued - 1) % ring.Capacity())
    && (w.Loaded? || w.Stamped? ==> ReadRight(pool.accepted, w.read) && w.read.ticket == pool.finished)
    && (forall t :: 0 <= t < |pool.accepted| ==>
          pool.accepted[t].index == p && pool.accepted[t].callback != NULL)
    && LogsRight(pool)
  }

  /** A worker never leaves the buffer, keeps the invariant and never makes the queue longer. */
  lemma WorkerKeeps(pool: Pool, step: WorkerStep, p: nat)
    requires PoolInv(pool, p) && WorkerEnabled(pool, step) && pool.ring.size < UINT_RANGE
    ensures !WorkerFaults(pool, step)
    ensures var next := WorkerNext(pool, step, p);
            && PoolInv(next, p)
            && next.ring.size <= pool.ring.size && next.ring.Capacity() == pool.ring.Capacity()
  {
    if step.TakePackage? {
      TicketsDequeue(pool.ring, pool.writers, pool.accepted, pool.counted, pool.dequeued);
    } else if step.LoadCallback? || step.ReadPackage? {
      LookRight(pool, p);
    } else if step.StampIndex? {
      StampIsIdle(pool, p);
    }
  }

  /** What the worker, or its callback, finds in the slot it was handed. */
  lemma LookRight(pool: Pool, p: nat)
    requires PoolInv(pool, p) && pool.worker.HoldsPackage()
    ensures pool.worker.slot < pool.ring.Capacity() == |pool.writers|
    ensures var r := pool.Look(pool.worker.slot);
            r.ticket == pool.dequeued - 1 && ReadRight(pool.accepted, r) && r.full == pool.Full()
  {
    HandedOutSlot(pool.ring, pool.writers, pool.accepted, pool.counted, pool.dequeued);
  }

  /** The index the worker writes is already in the slot, whichever package that holds. */
  lemma StampIsIdle(pool: Pool, p: nat)
    requires PoolInv(pool, p) && pool.worker.HoldsPackage()
    ensures pool.worker.slot < pool.ring.Capacity()
    ensures var slots, slot := pool.ring.slots, pool.worker.slot; slots[slot := slots[slot].(index := p)] == slots
  {
    LookRight(pool, p);
  }

  lemma CopyKeepsPool(pool: Pool, task: Package, p: nat)
    requires PoolInv(pool, p) && pool.ring.Capacity() > 0 && !pool.CopyUnderWay()
    requires task.index == p && task.callback != NULL
    ensures InBounds(pool.ring) && PoolInv(CopiedIn(pool, task), p)
  {
    TicketsCopy(pool.ring, pool.writers, pool.accepted, pool.dequeued, task);
  }

  lemma CountKeepsPool(pool: Pool, p: nat)
    requires PoolInv(pool, p) && pool.CopyUnderWay() && pool.ring.size + 1 < UINT_RANGE
    ensures InBounds(pool.ring) && PoolInv(CountedIn(pool), p)
    ensures CountedIn(pool).ring.size == pool.ring.size + 1 && !CountedIn(pool).CopyUnderWay()
  {
    TicketsCount(pool.ring, pool.writers, pool.accepted, pool.counted, pool.dequeued);
  }

  /** The thread has found room in pool `p` and its package is not yet counted there. */
  predicate Claims(thread: Thread, p: nat) {
    (thread.Checked? || thread.Copied?) && thread.pool == p
  }

  /** The number of threads that do. */
  function Claimants(threads: seq<Thread>, p: nat): (n: nat)
    ensures n <= |threads|
  {
    if threads == [] then 0 else
      Claimants(threads[..|threads| - 1], p) + if Claims(threads[|threads| - 1], p) then 1 else 0
  }

  lemma {:induction false} ClaimantsUpdate(threads: seq<Thread>, t: nat, thread: Thread, p: nat)
    requires t < |threads|
    ensures Claimants(threads[t := thread], p) + (if Claims(threads[t], p) then 1 else 0)
         == Claimants(threads, p) + if Claims(thread, p) then 1 else 0
  {
    var n := |threads| - 1;
    if t < n {
      ClaimantsUpdate(threads[..n], t, thread, p);
      assert threads[t := thread][..n] == threads[..n][t := thread];
    } else {
      assert threads[t := thread][..n] == threads[..n];
    }
  }

  lemma {:induction false} NoClaimants(threads: seq<Thread>, p: nat)
    requires forall t :: 0 <= t < |threads| ==> !Claims(threads[t], p)
    ensures Claimants(threads, p) == 0
  {
    if threads != [] {
      NoClaimants(threads[..|threads| - 1], p);
    }
  }

  /** A thread that has copied its package but not counted it holds the lock. */
  predicate ThreadInv(s: State, t: nat)
    requires t < |s.threads|
  {
    var thread := s.threads[t];
    && (t > 0 ==> thread.Submitting())
    && (thread.Chosen? || thread.Checked? || thread.Copied? || thread.Enqueued? ==> thread.pool < |s.pools|)
    && (thread.Chosen? || thread.Checked? ==> thread.task.callback != NULL)
    && (thread.Checked? ==> thread.task.index == thread.pool && s.pools[thread.pool].ring.Capacity() > 0)
    && (thread.Copied? ==>
          && s.lock == HeldBy(t)
          && var pool := s.pools[thread.pool];
             pool.CopyUnderWay() && pool.accepted[|pool.accepted| - 1] == thread.task)
  }

  /** A copy under way is that of the thread which holds the lock. */
  predicate LockInv(s: State, p: nat)
    requires p < |s.pools|
  {
    s.pools[p].CopyUnderWay() ==>
      s.lock.HeldBy? && s.lock.t < |s.threads| && s.threads[s.lock.t].Copied? && s.threads[s.lock.t].pool == p
  }

  /** Room counted twice: what is counted in the ring together with what has been promised room in it. */
  predicate RoomInv(s: State, p: nat)
    requires p < |s.pools| && |s.threads| > 0
  {
    var ring := s.pools[p].ring;
    && ring.Capacity() + |s.threads| <= UINT_RANGE
    && ring.size + Claimants(s.threads, p) <= ring.Capacity() + |s.threads| - 1
  }

  predicate Inv(s: State) {
    && |s.threads| > 0 && !s.fault
    && (forall p :: 0 <= p < |s.pools| ==> PoolInv(s.pools[p], p) && RoomInv(s, p) && LockInv(s, p))
    && (forall t :: 0 <= t < |s.threads| ==> ThreadInv(s, t))
  }

  /** The packages in the ring and the one being copied exceed the capacity by at most one for every
      submitter but the first. */
  lemma Occupancy(s: State, p: nat)
    requires Inv(s) && p < |s.pools|
    ensures var pool := s.pools[p];
            && |pool.accepted| - pool.dequeued == pool.ring.size + (if pool.CopyUnderWay() then 1 else 0)
            && |pool.accepted| - pool.dequeued <= pool.ring.Capacity() + |s.threads| - 1 < UINT_RANGE
  {
    assert PoolInv(s.pools[p], p) && RoomInv(s, p) && LockInv(s, p);
    if s.pools[p].CopyUnderWay() {
      ClaimantsUpdate(s.threads, s.lock.t, Ready, p);
    }
  }

  lemma {:induction false} InitInv(s: State)
    requires Init(s)
    ensures Inv(s)
  {
    forall p | 0 <= p < |s.pools|
      ensures PoolInv(s.pools[p], p) && RoomInv(s, p) && LockInv(s, p)
    {
      assert InitialPool(s.pools[p]);
      NoClaimants(s.threads, p);
    }
  }

  /** Replacing one pool by one that holds no more and has the same tasks. */
  lemma SetPoolKeeps(s: State, p: nat, pool: Pool)
    requires Inv(s) && p < |s.pools| && PoolInv(pool, p)
    requires pool.ring.Capacity() == s.pools[p].ring.Capacity() && pool.ring.size <= s.pools[p].ring.size
    requires pool.accepted == s.pools[p].accepted && pool.counted == s.pools[p].counted
    ensures Inv(s.SetPool(p, pool))
  {
    var s' := s.SetPool(p, pool);
    forall q | 0 <= q < |s'.pools|
      ensures PoolInv(s'.pools[q], q) && RoomInv(s', q) && LockInv(s', q)
    {
      assert PoolInv(s.pools[q], q) && RoomInv(s, q) && LockInv(s, q);
    }
    forall t | 0 <= t < |s'.threads|
      ensures ThreadInv(s', t)
    {
      assert ThreadInv(s, t);
    }
  }

  /** Moving one thread on, without a claim to room or with one for which there is room. */
  lemma SetThreadKeeps(s: State, t: nat, thread: Thread)
    requires Inv(s) && t < |s.threads| && ThreadInv(s.SetThread(t, thread), t)
    requires !s.threads[t].Copied? && !thread.Copied?
    requires thread.Checked? ==> s.pools[thread.pool].ring.size < s.pools[thread.pool].ring.Capacity()
    ensures Inv(s.SetThread(t, thread))
  {
    var s' := s.SetThread(t, thread);
    forall p | 0 <= p < |s'.pools|
      ensures PoolInv(s'.pools[p], p) && RoomInv(s', p) && LockInv(s', p)
    {
      assert PoolInv(s.pools[p], p) && RoomInv(s, p) && LockInv(s, p);
      ClaimantsUpdate(s.threads, t, thread, p);
    }
    forall u | 0 <= u < |s'.threads|
      ensures ThreadInv(s', u)
    {
      assert ThreadInv(s, u);
    }
  }

  /** One half of an enqueue: thread `t` and pool `p` move on, and the lock changes hands. */
  function Section(s: State, t: nat, thread: Thread, p: nat, pool: Pool, lock: Lock): State
    requires t < |s.threads| && p < |s.pools|
  {
    s.SetPool(p, pool).SetThread(t, thread).(lock := lock)
  }

  lemma SectionKeeps(s: State, t: nat, thread: Thread, p: nat, pool: Pool, lock: Lock)
    requires Inv(s) && t < |s.threads| && p < |s.pools| && PoolInv(pool, p)
    requires pool.ring.Capacity() == s.pools[p].ring.Capacity()
    requires forall q :: q != p ==> !Claims(thread, q) && !Claims(s.threads[t], q)
    requires pool.ring.size + (if Claims(thread, p) then 1 else 0)
          == s.pools[p].ring.size + if Claims(s.threads[t], p) then 1 else 0
    requires var s' := Section(s, t, thread, p, pool, lock);
             && (forall q :: 0 <= q < |s'.pools| ==> LockInv(s', q))
             && (forall u :: 0 <= u < |s'.threads| ==> ThreadInv(s', u))
    ensures Inv(Section(s, t, thread, p, pool, lock))
  {
    var s' := Section(s, t, thread, p, pool, lock);
    forall q | 0 <= q < |s'.pools|
      ensures PoolInv(s'.pools[q], q) && RoomInv(s', q)
    {
      assert PoolInv(s.pools[q], q) && RoomInv(s, q);
      ClaimantsUpdate(s.threads, t, thread, q);
    }
  }

  /** The copy takes the lock and does not touch the claims to room. */
  lemma CopyEffect(s: State, t: nat)
    requires Inv(s) && Enabled(s, Copy(t))
    ensures var p, task := s.threads[t].pool, s.threads[t].task; var pool := s.pools[p];
            && InBounds(pool.ring) && !pool.CopyUnderWay() && PoolInv(CopiedIn(pool, task), p)
            && Apply(s, Copy(t)) == Section(s, t, Copied(p, task), p, CopiedIn(pool, task), HeldBy(t))
  {
    var p := s.threads[t].pool;
    assert ThreadInv(s, t) && PoolInv(s.pools[p], p) && LockInv(s, p);
    CopyKeepsPool(s.pools[p], s.threads[t].task, p);
  }

  lemma CopyKeeps(s: State, t: nat)
    requires Inv(s) && Enabled(s, Copy(t))
    ensures Inv(Apply(s, Copy(t)))
  {
    CopyEffect(s, t);
    var p, task, s' := s.threads[t].pool, s.threads[t].task, Apply(s, Copy(t));
    forall q | 0 <= q < |s'.pools|
      ensures LockInv(s', q)
    {
      assert LockInv(s, q);
    }
    forall u | 0 <= u < |s'.threads|
      ensures ThreadInv(s', u)
    {
      assert ThreadInv(s, u);
    }
    SectionKeeps(s, t, Copied(p, task), p, s'.pools[p], HeldBy(t));
  }

  /** The count turns one claim to room into one package more and frees the lock. */
  lemma CountEffect(s: State, t: nat)
    requires Inv(s) && Enabled(s, Count(t))
    ensures var p := s.threads[t].pool; var pool := s.pools[p];
            && InBounds(pool.ring) && pool.dequeued <= pool.counted == |pool.accepted| - 1
            && pool.accepted[pool.counted] == s.threads[t].task
            && PoolInv(CountedIn(pool), p) && CountedIn(pool).ring.size == pool.ring.size + 1
            && Apply(s, Count(t)) == Section(s, t, Enqueued(p), p, CountedIn(pool), Free)
  {
    var p := s.threads[t].pool;
    assert ThreadInv(s, t) && PoolInv(s.pools[p], p) && RoomInv(s, p);
    ClaimantsUpdate(s.threads, t, Enqueued(p), p);
    CountKeepsPool(s.pools[p], p);
  }

  lemma CountKeeps(s: State, t: nat)
    requires Inv(s) && Enabled(s, Count(t))
    ensures Inv(Apply(s, Count(t)))
  {
    CountEffect(s, t);
    var p, s' := s.threads[t].pool, Apply(s, Count(t));
    assert ThreadInv(s, t);
    forall q | 0 <= q < |s'.pools|
      ensures LockInv(s', q)
    {
      assert LockInv(s, q);
    }
    forall u | 0 <= u < |s'.threads|
      ensures ThreadInv(s', u)
    {
      assert ThreadInv(s, u);
    }
    SectionKeeps(s, t, Enqueued(p), p, s'.pools[p], Free);
  }

  lemma RaiseKeeps(s: State, p: nat, pending: set<Signal>)
    requires Inv(s) && p < |s.pools|
    ensures Inv(s.SetPool(p, s.pools[p].(pending := pending)))
  {
    assert PoolInv(s.pools[p], p);
    SetPoolKeeps(s, p, s.pools[p].(pending := pending));
  }

  lemma WorkEffect(s: State, p: nat, w: WorkerStep)
    requires Inv(s) && Enabled(s, Work(p, w))
    ensures !WorkerFaults(s.pools[p], w)
    ensures Apply(s, Work(p, w)) == s.SetPool(p, WorkerNext(s.pools[p], w, p))
    ensures WorkerNext(s.pools[p], w, p).ring.size <= s.pools[p].ring.size
  {
    assert PoolInv(s.pools[p], p) && RoomInv(s, p);
    WorkerKeeps(s.pools[p], w, p);
  }

  lemma WorkKeeps(s: State, p: nat, w: WorkerStep)
    requires Inv(s) && Enabled(s, Work(p, w))
    ensures !WorkerFaults(s.pools[p], w) && Inv(Apply(s, Work(p, w)))
  {
    assert PoolInv(s.pools[p], p) && RoomInv(s, p);
    WorkerKeeps(s.pools[p], w, p);
    SetPoolKeeps(s, p, WorkerNext(s.pools[p], w, p));
  }

  lemma NotifyKeeps(s: State, t: nat, raise: bool)
    requires Inv(s) && Enabled(s, Notify(t, raise))
    ensures Inv(Apply(s, Notify(t, raise)))
  {
    var p := s.threads[t].pool;
    var pending := Apply(s, Notify(t, raise)).pools[p].pending;
    RaiseKeeps(s, p, pending);
    SetThreadKeeps(s.SetPool(p, s.pools[p].(pending := pending)), t, Ready);
  }

  lemma KillKeeps(s: State)
    requires Inv(s) && Enabled(s, Kill)
    ensures Inv(Apply(s, Kill))
  {
    var x := s.threads[0].x;
    var pending := s.pools[x].pending + {Terminate};
    RaiseKeeps(s, x, pending);
    SetThreadKeeps(s.SetPool(x, s.pools[x].(pending := pending)), 0, Joining(x));
  }

  lemma EndTerminateKeeps(s: State)
    requires Inv(s) && Enabled(s, EndTerminate)
    ensures Inv(Apply(s, EndTerminate))
  {
    SetThreadKeeps(s, 0, Ready);
    var s' := s.SetThread(0, Ready);
    var s'' := Apply(s, EndTerminate);
    assert forall p :: 0 <= p < |s'.pools| ==> RoomInv(s', p) && LockInv(s', p) ==> RoomInv(s'', p) && LockInv(s'', p);
    assert forall t :: 0 <= t < |s'.threads| ==> ThreadInv(s', t) ==> ThreadInv(s'', t);
  }

  lemma SubmitKeeps(s: State, step: Step)
    requires Inv(s) && Enabled(s, step) && (step.Choose? || step.CheckRoom?)
    ensures Inv(Apply(s, step))
  {
    assert ThreadInv(s, step.t);
    SetThreadKeeps(s, step.t, Apply(s, step).threads[step.t]);
  }

  lemma OwnerKeeps(s: State, step: Step)
    requires Inv(s) && Enabled(s, step)
    requires step.BeginWait? || step.PassPool? || step.EndWait? || step.Join?
    ensures Inv(Apply(s, step))
  {
    SetThreadKeeps(s, 0, Apply(s, step).threads[0]);
  }

  lemma StepKeeps(s: State, step: Step)
    requires Inv(s) && Enabled(s, step)
    ensures Inv(Apply(s, step))
  {
    match step {
      case Work(p, w) => WorkKeeps(s, p, w);
      case RaiseSignal(p, signal) => RaiseKeeps(s, p, s.pools[p].pending + {signal});
      case Choose(_, _, _) => SubmitKeeps(s, step);
      case CheckRoom(_) => SubmitKeeps(s, step);
      case Copy(t) => CopyKeeps(s, t);
      case Count(t) => CountKeeps(s, t);
      case Notify(t, raise) => NotifyKeeps(s, t, raise);
      case Kill => KillKeeps(s);
      case RetryPool =>
      case EndTerminate => EndTerminateKeeps(s);
      case _ => OwnerKeeps(s, step);
    }
  }

  /** The invariant holds all along every interleaving. */
  lemma {:induction false} RunKeeps(run: Run, i: nat)
    requires run.Valid() && i < |run.states|
    ensures Inv(run.states[i])
  {
    if i == 0 {
      InitInv(run.states[0]);
    } else {
      RunKeeps(run, i - 1);
      assert run.StepAt(i - 1);
      StepKeeps(run.states[i - 1], run.steps[i - 1]);
    }
  }
}
