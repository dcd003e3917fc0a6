/** The scheduler as a transition system: any number of pools of any capacity, one worker thread per
    pool, and any number of threads that submit tasks. A critical section excludes other critical
    sections and nothing else: an enqueue has the step that copies the package and the step that counts
    it, and a worker and its callback can read the slot they were handed between the two. Every test
    outside a critical section is a step of its own. Reads of a pool's flag have arbitrary results. */
module Protocol {
  import opened Structures
  import opened Rings

  /** The signals a worker can be woken by. */
  datatype Signal = Continue | Done | Running | Quit | Terminate

  /** One read of the slot that belongs to ticket `ticket`: what was in it, the ticket that last went
      into it, and whether the ring was full. */
  datatype Read = Read(ticket: nat, writer: nat, contents: Package, full: bool)

  /** Where a worker is in its main loop, the slot of the package it holds, and the read that the
      callback comes from. */
  datatype Worker =
    | LoopHead
    | SawWork
    | Holding(slot: nat)
    | Loaded(slot: nat, read: Read)
    | Stamped(slot: nat, read: Read)
    | Invoking(slot: nat)
    | AtWait
    | Exited
  {
    predicate HoldsPackage() {
      Holding? || Loaded? || Stamped? || Invoking?
    }
  }

  /** A pool with its worker, the signals pending for it, and the history of its tasks: those accepted,
      in the order of their tickets, how many of them are counted in `size`, dequeued and finished, the
      ticket that last went into each slot, the reads that the invoked callbacks come from, one for each
      call, and the reads made by the callbacks while they ran. */
  datatype Pool = Pool(
    ring: Ring,
    worker: Worker,
    pending: set<Signal>,
    accepted: seq<Package>,
    counted: nat,
    dequeued: nat,
    finished: nat,
    writers: seq<nat>,
    calls: seq<Read>,
    looks: seq<Read>)
  {
    /** A submitter is between the two halves of the enqueue. */
    predicate CopyUnderWay() {
      counted < |accepted|
    }

    /** No slot is left that is neither in use nor being written. */
    predicate Full() {
      ring.size + (if CopyUnderWay() then 1 else 0) >= ring.Capacity()
    }

    /** A look into slot `slot` by the worker or its callback. */
    function Look(slot: nat): Read
      requires slot < ring.Capacity()
    {
      Read(finished, if slot < |writers| then writers[slot] else 0, ring.slots[slot], Full())
    }
  }

  datatype WorkerStep =
    | SeeWork
    | SeeNothing
    | TakePackage
    | LoadCallback
    | StampIndex
    | Invoke
    | ReadPackage
    | Finish
    | AcceptSignal(signal: Signal)

  /** The switch after the signal wait: only two of the signals end it. */
  function AfterSignal(signal: Signal): Worker {
    match signal
    case Terminate => Exited
    case Continue => LoopHead
    case _ => AtWait
  }

  /** The callback may read its package any number of times until it returns. */
  predicate WorkerEnabled(pool: Pool, step: WorkerStep) {
    match step
    case SeeWork => pool.worker.LoopHead? && pool.ring.size > 0
    case SeeNothing => pool.worker.LoopHead? && pool.ring.size == 0
    case TakePackage => pool.worker.SawWork?
    case LoadCallback => pool.worker.Holding?
    case StampIndex => pool.worker.Loaded?
    case Invoke => pool.worker.Stamped?
    case ReadPackage => pool.worker.Invoking?
    case Finish => pool.worker.Invoking?
    case AcceptSignal(signal) => pool.worker.AtWait? && signal in pool.pending
  }

  /** A step that would divide by zero or access memory outside the buffer. */
  predicate WorkerFaults(pool: Pool, step: WorkerStep)
    requires WorkerEnabled(pool, step)
  {
    match step
    case TakePackage => !InBounds(pool.ring)
    case LoadCallback => pool.worker.slot >= pool.ring.Capacity()
    case StampIndex => pool.worker.slot >= pool.ring.Capacity()
    case ReadPackage => pool.worker.slot >= pool.ring.Capacity()
    case _ => false
  }

  /** One step of the worker of pool number `p`. */
  function WorkerNext(pool: Pool, step: WorkerStep, p: nat): Pool
    requires WorkerEnabled(pool, step) && !WorkerFaults(pool, step)
  {
    var ring := pool.ring;
    match step
    case SeeWork => pool.(worker := SawWork)
    case SeeNothing => pool.(worker := AtWait)
    case TakePackage => pool.(ring := Dequeue(ring), worker := Holding(ring.head), dequeued := pool.dequeued + 1)
    case LoadCallback => pool.(worker := Loaded(pool.worker.slot, pool.Look(pool.worker.slot)))
    case StampIndex =>
      var slot := pool.worker.slot;
      pool.(ring := ring.(slots := ring.slots[slot := ring.slots[slot].(index := p)]),
            worker := Stamped(slot, pool.worker.read))
    case Invoke => pool.(worker := Invoking(pool.worker.slot), calls := pool.calls + [pool.worker.read])
    case ReadPackage => pool.(looks := pool.looks + [pool.Look(pool.worker.slot)])
    case Finish => pool.(worker := LoopHead, finished := pool.finished + 1)
    case AcceptSignal(signal) => pool.(worker := AfterSignal(signal), pending := pool.pending - {signal})
  }

  /** The two halves of the enqueue section on behalf of a submitter. */
  function CopiedIn(pool: Pool, task: Package): Pool
    requires InBounds(pool.ring)
  {
    var tail, writers := pool.ring.tail, pool.writers;
    pool.(ring := CopyIn(pool.ring, task), accepted := pool.accepted + [task],
          writers := if tail < |writers| then writers[tail := |pool.accepted|] else writers)
  }

  function CountedIn(pool: Pool): Pool
    requires InBounds(pool.ring)
  {
    pool.(ring := CountIn(pool.ring), counted := pool.counted + 1)
  }

  /** Where a submitting thread is. Thread 0 may also wait for the pools and terminate the scheduler. */
  datatype Thread =
    | Ready
    | Chosen(pool: nat, task: Package)
    | Checked(pool: nat, task: Package)
    | Copied(pool: nat, task: Package)
    | Enqueued(pool: nat)
    | Waiting(i: nat, terminating: bool)
    | Killing(x: nat)
    | Joining(x: nat)
  {
    predicate Submitting() {
      Ready? || Chosen? || Checked? || Copied? || Enqueued?
    }
  }

  /** The spin lock of the scheduler. Only an enqueue holds it for more than one step. */
  datatype Lock = Free | HeldBy(t: nat)

  datatype State = State(pools: seq<Pool>, threads: seq<Thread>, lock: Lock, running: bool, fault: bool) {
    function SetPool(p: nat, pool: Pool): State
      requires p < |pools|
    {
      this.(pools := pools[p := pool])
    }

    function SetThread(t: nat, thread: Thread): State
      requires t < |threads|
    {
      this.(threads := threads[t := thread])
    }
  }

  datatype Step =
    | Work(p: nat, step: WorkerStep)
    | RaiseSignal(p: nat, signal: Signal)
    | Choose(t: nat, p: nat, task: Package)
    | CheckRoom(t: nat)
    | Copy(t: nat)
    | Count(t: nat)
    | Notify(t: nat, raise: bool)
    | BeginWait(terminating: bool)
    | PassPool
    | RetryPool
    | EndWait
    | Kill
    | Join
    | EndTerminate

  predicate Enabled(s: State, step: Step) {
    && !s.fault
    && |s.threads| > 0
    && var owner := s.threads[0];
       match step
       case Work(p, w) => p < |s.pools| && WorkerEnabled(s.pools[p], w) && (w.TakePackage? ==> s.lock.Free?)
       // Any other signal may come at any time; termination only from Kill.
       case RaiseSignal(p, signal) => p < |s.pools| && signal != Terminate
       // The pool is the requested one or the root of the heap, which is one of the pools in any case
       // (lemma EntriesArePools of module HeapRace).
       case Choose(t, p, task) =>
         t < |s.threads| && s.threads[t].Ready? && s.running && p < |s.pools| && task.callback != NULL
       case CheckRoom(t) => t < |s.threads| && s.threads[t].Chosen? && s.threads[t].pool < |s.pools|
       case Copy(t) => t < |s.threads| && s.threads[t].Checked? && s.threads[t].pool < |s.pools| && s.lock.Free?
       case Count(t) => t < |s.threads| && s.threads[t].Copied? && s.threads[t].pool < |s.pools|
       case Notify(t, raise) =>
         && t < |s.threads| && s.threads[t].Enqueued? && s.threads[t].pool < |s.pools|
         && (raise ==> s.pools[s.threads[t].pool].ring.size <= 1)
       case BeginWait(_) => owner.Ready? && s.running
       case PassPool => owner.Waiting? && owner.i < |s.pools| && s.pools[owner.i].ring.size <= 0
       case RetryPool => owner.Waiting? && owner.i < |s.pools|
       case EndWait => owner.Waiting? && owner.i == |s.pools|
       case Kill => owner.Killing? && owner.x < |s.pools|
       case Join => owner.Joining? && owner.x < |s.pools| && s.pools[owner.x].worker.Exited?
       case EndTerminate => owner.Killing? && owner.x == |s.pools|
  }

  function Apply(s: State, step: Step): State
    requires Enabled(s, step)
  {
    var owner := s.threads[0];
    match step
    case Work(p, w) =>
      if WorkerFaults(s.pools[p], w) then s.(fault := true)
      else s.SetPool(p, WorkerNext(s.pools[p], w, p))
    case RaiseSignal(p, signal) => s.SetPool(p, s.pools[p].(pending := s.pools[p].pending + {signal}))
    case Choose(t, p, task) => s.SetThread(t, Chosen(p, task))
    case CheckRoom(t) =>
      var p := s.threads[t].pool;
      var ring := s.pools[p].ring;
      s.SetThread(t, if ring.size >= ring.Capacity() then Ready else Checked(p, s.threads[t].task.(index := p)))
    case Copy(t) =>
      var p, task := s.threads[t].pool, s.threads[t].task;
      if InBounds(s.pools[p].ring) then
        s.SetPool(p, CopiedIn(s.pools[p], task)).SetThread(t, Copied(p, task)).(lock := HeldBy(t))
      else s.(fault := true)
    case Count(t) =>
      var p := s.threads[t].pool;
      if InBounds(s.pools[p].ring) then
        s.SetPool(p, CountedIn(s.pools[p])).SetThread(t, Enqueued(p)).(lock := Free)
      else s.(fault := true)
    case Notify(t, raise) =>
      var p := s.threads[t].pool;
      var pending := s.pools[p].pending;
      s.SetPool(p, s.pools[p].(pending := if raise then pending + {Continue} else pending)).SetThread(t, Ready)
    case BeginWait(terminating) => s.SetThread(0, Waiting(0, terminating))
    case PassPool => s.SetThread(0, Waiting(owner.i + 1, owner.terminating))
    case RetryPool => s
    case EndWait => s.SetThread(0, if owner.terminating then Killing(0) else Ready)
    case Kill =>
      var pool := s.pools[owner.x];
      s.SetPool(owner.x, pool.(pending := pool.pending + {Terminate})).SetThread(0, Joining(owner.x))
    case Join => s.SetThread(0, Killing(owner.x + 1))
    case EndTerminate => s.SetThread(0, Ready).(running := false)
  }

  /** The state after a successful start: empty queues and workers at the head of their loops. */
  predicate InitialPool(pool: Pool) {
    && pool.ring.head == pool.ring.tail == pool.ring.size == 0
    && pool.worker == LoopHead && Terminate !in pool.pending
    && pool.accepted == [] && pool.counted == pool.dequeued == pool.finished == 0
    && |pool.writers| == pool.ring.Capacity() && pool.calls == pool.looks == []
  }

  predicate Init(s: State) {
    && |s.threads| > 0 && s.lock.Free? && s.running && !s.fault
    && (forall t :: 0 <= t < |s.threads| ==> s.threads[t] == Ready)
    && (forall p :: 0 <= p < |s.pools| ==>
          InitialPool(s.pools[p]) && s.pools[p].ring.Capacity() + |s.threads| <= UINT_RANGE)
  }

  /** An interleaving, as the steps taken and the states in between. */
  datatype Run = Run(states: seq<State>, steps: seq<Step>) {
    ghost predicate Valid() {
      && |states| == |steps| + 1
      && Init(states[0])
      && forall i :: 0 <= i < |steps| ==> StepAt(i)
    }

    predicate StepAt(i: nat)
      requires i < |steps| && |states| == |steps| + 1
    {
      Enabled(states[i], steps[i]) && states[i + 1] == Apply(states[i], steps[i])
    }

    function Last(): State
      requires |states| > 0
    {
      states[|states| - 1]
    }

    function Then(step: Step): Run
      requires |states| > 0 && Enabled(Last(), step)
    {
      Run(states + [Apply(Last(), step)], steps + [step])
    }
  }
}
