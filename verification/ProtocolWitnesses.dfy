/** Runs that show that the bounds of module ProtocolResults cannot be improved. */
module ProtocolWitnesses {
  import opened Structures
  import opened Rings
  import opened Protocol
  import opened ProtocolInvariant
  import opened ProtocolResults

  /** One more step of a run is a run. */
  lemma Extend(run: Run, step: Step)
    requires run.Valid() && Enabled(run.Last(), step)
    ensures run.Then(step).Valid() && run.Then(step).Last() == Apply(run.Last(), step)
    ensures run.Then(step).states[0] == run.states[0]
  {
    var longer := run.Then(step);
    forall i | 0 <= i < |longer.steps|
      ensures longer.StepAt(i)
    {
      if i < |run.steps| {
        assert run.StepAt(i);
        assert longer.states[i] == run.states[i] && longer.states[i + 1] == run.states[i + 1];
      }
    }
  }

  /** One pool, none of whose tasks has been taken, and the positions of its submitters. */
  ghost predicate Stage(run: Run, capacity: nat, submitters: nat, size: nat) {
    && run.Valid()
    && var s := run.Last();
       && |s.pools| == 1 && |s.threads| == submitters && s.lock.Free? && s.running && !s.fault
       && s.pools[0].ring.Capacity() == capacity && s.pools[0].ring.size == size
  }

  const TASK := Package(0, 0, 1, 0, 0, 0, 0, 0)

  /** Submitter 0 fills the ring up to `size`. */
  lemma {:induction false} Fill(capacity: nat, submitters: nat, size: nat) returns (run: Run)
    requires size < capacity && submitters > 0 && capacity + submitters <= UINT_RANGE
    ensures Stage(run, capacity, submitters, size)
    ensures forall t :: 0 <= t < submitters ==> run.Last().threads[t] == Ready
    decreases size
  {
    if size == 0 {
      var ring := Ring(seq(capacity, i => TASK), 0, 0, 0);
      var pool := Pool(ring, LoopHead, {}, [], 0, 0, 0, seq(capacity, i => 0), [], []);
      run := Run([State([pool], seq(submitters, t => Ready), Free, true, false)], []);
      assert Init(run.Last());
    } else {
      run := Fill(capacity, submitters, size - 1);
      Extend(run, Choose(0, 0, TASK));
      run := run.Then(Choose(0, 0, TASK));
      Extend(run, CheckRoom(0));
      run := run.Then(CheckRoom(0));
      run := EnqueueOne(run, capacity, submitters, size - 1, 0);
      Extend(run, Notify(0, false));
      run := run.Then(Notify(0, false));
    }
  }

  predicate FoundRoom(thread: Thread) {
    thread.Checked? && thread.pool == 0
  }

  /** A submitter that has found room enqueues, even if there is none any more. */
  lemma EnqueueOne(run: Run, capacity: nat, submitters: nat, size: nat, t: nat) returns (longer: Run)
    requires Stage(run, capacity, submitters, size) && t < submitters && FoundRoom(run.Last().threads[t])
    ensures Stage(longer, capacity, submitters, size + 1)
    ensures longer.Last().threads == run.Last().threads[t := Enqueued(0)]
  {
    var s := run.Last();
    RunKeeps(run, |run.states| - 1);
    assert PoolInv(s.pools[0], 0) && ThreadInv(s, t) && LockInv(s, 0);
    CopyKeepsPool(s.pools[0], s.threads[t].task, 0);
    Extend(run, Copy(t));
    longer := run.Then(Copy(t));
    CountOne(longer, t);
    Extend(longer, Count(t));
    longer := longer.Then(Count(t));
  }

  lemma CountOne(run: Run, t: nat)
    requires run.Valid() && Enabled(run.Last(), Count(t)) && run.Last().threads[t].pool == 0
    ensures var s := run.Last();
            InBounds(s.pools[0].ring) && CountedIn(s.pools[0]).ring.size == s.pools[0].ring.size + 1
  {
    var s := run.Last();
    RunKeeps(run, |run.states| - 1);
    assert PoolInv(s.pools[0], 0) && ThreadInv(s, t) && RoomInv(s, 0);
    ClaimantsUpdate(s.threads, t, Enqueued(0), 0);
    CountKeepsPool(s.pools[0], 0);
  }

  /** The first `n` submitters all find room for one more package. */
  lemma {:induction false} CheckAll(capacity: nat, submitters: nat, n: nat) returns (run: Run)
    requires capacity > 0 && submitters > 0 && capacity + submitters <= UINT_RANGE && n <= submitters
    ensures Stage(run, capacity, submitters, capacity - 1)
    ensures forall t :: 0 <= t < n ==> FoundRoom(run.Last().threads[t])
    ensures forall t :: n <= t < submitters ==> run.Last().threads[t] == Ready
    decreases n
  {
    if n == 0 {
      run := Fill(capacity, submitters, capacity - 1);
    } else {
      run := CheckAll(capacity, submitters, n - 1);
      Extend(run, Choose(n - 1, 0, TASK));
      run := run.Then(Choose(n - 1, 0, TASK));
      Extend(run, CheckRoom(n - 1));
      run := run.Then(CheckRoom(n - 1));
    }
  }

  lemma {:induction false} EnqueueAll(capacity: nat, submitters: nat, n: nat) returns (run: Run)
    requires capacity > 0 && submitters > 0 && capacity + submitters <= UINT_RANGE && n <= submitters
    ensures Stage(run, capacity, submitters, capacity - 1 + n)
    ensures forall t :: n <= t < submitters ==> FoundRoom(run.Last().threads[t])
    decreases n
  {
    if n == 0 {
      run := CheckAll(capacity, submitters, submitters);
    } else {
      run := EnqueueAll(capacity, submitters, n - 1);
      run := EnqueueOne(run, capacity, submitters, capacity - 1 + n - 1, n - 1);
    }
  }

  /** The bound on the overflow is reached, for every capacity and any number of submitters; so a ring
      with room for at least one package can overflow exactly if there is a second submitter. */
  lemma OverflowIsReached(capacity: nat, submitters: nat) returns (run: Run)
    requires capacity > 0 && submitters > 0 && capacity + submitters <= UINT_RANGE
    ensures run.Valid() && |run.Last().pools| == 1 && |run.Last().threads| == submitters
    ensures run.Last().pools[0].ring.Capacity() == capacity
    ensures run.Last().pools[0].ring.size == capacity + submitters - 1
    ensures run.Last().pools[0].ring.size > capacity <==> submitters > 1
  {
    run := EnqueueAll(capacity, submitters, submitters);
  }

  const FIRST := TASK
  const SECOND := TASK.(puser := 1)

  /** One pool with room for one package, and one submitter. */
  function Single(pool: Pool, owner: Thread, lock: Lock, running: bool): State {
    State([pool], [owner], lock, running, false)
  }

  predicate OneSlot(pool: Pool, size: nat) {
    |pool.ring.slots| == 1 == |pool.writers| && pool.ring.head == pool.ring.tail == 0 && pool.ring.size == size
  }

  const FRESH := Pool(Ring([FIRST], 0, 0, 0), LoopHead, {}, [], 0, 0, 0, [0], [], [])

  lemma Start() returns (run: Run)
    ensures run.Valid() && run.Last() == Single(FRESH, Ready, Free, true)
  {
    run := Run([Single(FRESH, Ready, Free, true)], []);
    assert Init(run.Last());
  }

  /** One more step, into a given state. */
  lemma Go(run: Run, step: Step, next: State) returns (longer: Run)
    requires run.Valid() && Enabled(run.Last(), step) && Apply(run.Last(), step) == next
    ensures longer.Valid() && longer.Last() == next && longer.steps == run.steps + [step]
  {
    Extend(run, step);
    longer := run.Then(step);
  }

  /** The pool after a submitter has copied a package into its only slot, and after it is counted. */
  function WithCopy(pool: Pool, task: Package): Pool {
    pool.(ring := Ring([task], 0, 0, 0), accepted := pool.accepted + [task], writers := [|pool.accepted|])
  }

  function WithTask(pool: Pool, task: Package): Pool {
    WithCopy(pool, task).(ring := Ring([task], 0, 0, 1), counted := pool.counted + 1)
  }

  lemma CopySingle(run: Run, pool: Pool, task: Package) returns (longer: Run)
    requires run.Valid() && run.Last() == Single(pool, Ready, Free, true) && OneSlot(pool, 0)
    requires task.index == 0 && task.callback != NULL
    ensures longer.Valid() && longer.Last() == Single(WithCopy(pool, task), Copied(0, task), HeldBy(0), true)
  {
    longer := Go(run, Choose(0, 0, task), Single(pool, Chosen(0, task), Free, true));
    longer := Go(longer, CheckRoom(0), Single(pool, Checked(0, task), Free, true));
    assert pool.ring.slots[0 := task] == [task] && pool.writers[0 := |pool.accepted|] == [|pool.accepted|];
    longer := Go(longer, Copy(0), Single(WithCopy(pool, task), Copied(0, task), HeldBy(0), true));
  }

  lemma CountSingle(run: Run, pool: Pool, task: Package) returns (longer: Run)
    requires run.Valid() && run.Last() == Single(pool, Copied(0, task), HeldBy(0), true) && OneSlot(pool, 0)
    ensures longer.Valid()
    ensures var counted := pool.(ring := pool.ring.(size := 1), counted := pool.counted + 1);
            longer.Last() == Single(counted, Ready, Free, true)
  {
    var counted := pool.(ring := pool.ring.(size := 1), counted := pool.counted + 1);
    longer := Go(run, Count(0), Single(counted, Enqueued(0), Free, true));
    longer := Go(longer, Notify(0, false), Single(counted, Ready, Free, true));
  }

  lemma SubmitSingle(run: Run, pool: Pool, task: Package) returns (longer: Run)
    requires run.Valid() && run.Last() == Single(pool, Ready, Free, true) && OneSlot(pool, 0)
    requires task.index == 0 && task.callback != NULL
    ensures longer.Valid() && longer.Last() == Single(WithTask(pool, task), Ready, Free, true)
  {
    longer := CopySingle(run, pool, task);
    longer := CountSingle(longer, WithCopy(pool, task), task);
  }

  /** A step of the worker, which nothing else notices. */
  lemma WorkSingle(run: Run, pool: Pool, w: WorkerStep, owner: Thread, lock: Lock) returns (longer: Run)
    requires run.Valid() && run.Last() == Single(pool, owner, lock, true)
    requires WorkerEnabled(pool, w) && !WorkerFaults(pool, w) && (w.TakePackage? ==> lock.Free?)
    ensures longer.Valid() && longer.Last() == Single(WorkerNext(pool, w, 0), owner, lock, true)
  {
    longer := Go(run, Work(0, w), Single(WorkerNext(pool, w, 0), owner, lock, true));
  }

  function Taken(pool: Pool): Pool {
    pool.(ring := pool.ring.(size := 0), worker := Holding(0), dequeued := pool.dequeued + 1)
  }

  lemma TakeSingle(run: Run, pool: Pool) returns (longer: Run)
    requires run.Valid() && run.Last() == Single(pool, Ready, Free, true) && OneSlot(pool, 1) && pool.worker == LoopHead
    ensures longer.Valid() && longer.Last() == Single(Taken(pool), Ready, Free, true)
  {
    longer := WorkSingle(run, pool, SeeWork, Ready, Free);
    longer := WorkSingle(longer, pool.(worker := SawWork), TakePackage, Ready, Free);
  }

  /** From a package in hand to the call, and to the end of the call. */
  lemma CallSingle(run: Run, pool: Pool, size: nat) returns (longer: Run)
    requires run.Valid() && run.Last() == Single(pool, Ready, Free, true) && OneSlot(pool, size)
    requires pool.worker == Holding(0) && pool.ring.slots[0].index == 0
    ensures longer.Valid()
    ensures longer.Last() == Single(pool.(worker := Invoking(0), calls := pool.calls + [pool.Look(0)]), Ready, Free, true)
  {
    var read := pool.Look(0);
    longer := WorkSingle(run, pool, LoadCallback, Ready, Free);
    longer := WorkSingle(longer, pool.(worker := Loaded(0, read)), StampIndex, Ready, Free);
    var slots := pool.ring.slots;
    assert slots[0 := slots[0].(index := 0)] == slots;
    longer := WorkSingle(longer, pool.(worker := Stamped(0, read)), Invoke, Ready, Free);
  }

  lemma WaitSingle(run: Run, pool: Pool, terminating: bool) returns (longer: Run)
    requires run.Valid() && run.Last() == Single(pool, Ready, Free, true) && OneSlot(pool, 0)
    ensures longer.Valid() && longer.steps != [] && longer.steps[|longer.steps| - 1] == EndWait
    ensures longer.Last() == Single(pool, if terminating then Killing(0) else Ready, Free, true)
  {
    longer := Go(run, BeginWait(terminating), Single(pool, Waiting(0, terminating), Free, true));
    longer := Go(longer, PassPool, Single(pool, Waiting(1, terminating), Free, true));
    longer := Go(longer, EndWait, Single(pool, if terminating then Killing(0) else Ready, Free, true));
  }

  lemma ToldSingle(run: Run, pool: Pool) returns (longer: Run)
    requires run.Valid() && run.Last() == Single(pool, Killing(0), Free, true)
    requires pool.worker == AtWait && pool.pending == {}
    ensures longer.Valid() && longer.Last() == Single(pool.(worker := Exited), Joining(0), Free, true)
  {
    var told := pool.(pending := {Terminate});
    assert pool.pending + {Terminate} == {Terminate};
    longer := Go(run, Kill, Single(told, Joining(0), Free, true));
    assert told.pending - {Terminate} == {};
    longer := WorkSingle(longer, told, AcceptSignal(Terminate), Joining(0), Free);
  }

  lemma TerminateSingle(run: Run, pool: Pool) returns (longer: Run)
    requires run.Valid() && run.Last() == Single(pool, Ready, Free, true) && OneSlot(pool, 0)
    requires pool.worker == LoopHead && pool.pending == {}
    ensures longer.Valid() && longer.Last() == Single(pool.(worker := Exited), Ready, Free, false)
  {
    longer := WaitSingle(run, pool, true);
    longer := WorkSingle(longer, pool, SeeNothing, Killing(0), Free);
    longer := ToldSingle(longer, pool.(worker := AtWait));
    var gone := pool.(worker := Exited);
    longer := Go(longer, Join, Single(gone, Killing(1), Free, true));
    longer := Go(longer, EndTerminate, Single(gone, Ready, Free, false));
  }

  /** The wait can return while the only accepted task has been taken from its queue but not started. */
  lemma WaitReturnsEarly() returns (run: Run)
    ensures run.Valid() && run.steps != [] && run.steps[|run.steps| - 1] == EndWait
    ensures |run.Last().pools| == 1 && run.Last().threads == [Ready]
    ensures var pool := run.Last().pools[0];
            pool.accepted == [FIRST] && pool.calls == [] && pool.worker.HoldsPackage()
  {
    run := Start();
    run := SubmitSingle(run, FRESH, FIRST);
    var pool := WithTask(FRESH, FIRST);
    run := TakeSingle(run, pool);
    run := WaitSingle(run, Taken(pool), false);
  }

  /** The pool when the worker holds the slot of the first task. */
  const HELD := Taken(WithTask(FRESH, FIRST))

  lemma HoldFirst() returns (run: Run)
    ensures run.Valid() && run.Last() == Single(HELD, Ready, Free, true)
  {
    run := Start();
    run := SubmitSingle(run, FRESH, FIRST);
    run := TakeSingle(run, WithTask(FRESH, FIRST));
  }

  /** The second task, from its queue to the end of its callback, which reads nothing, and of the
      scheduler. */
  lemma FinishSecond(run: Run, pool: Pool) returns (longer: Run)
    requires run.Valid() && run.Last() == Single(pool, Ready, Free, true) && OneSlot(pool, 1)
    requires pool.worker == LoopHead && pool.pending == {} && pool.ring.slots == [SECOND] && pool.writers == [1]
    requires pool.finished == 1 && pool.accepted == [FIRST, SECOND] && pool.counted == 2
    ensures longer.Valid()
    ensures var last := Taken(pool).(worker := Exited, finished := 2, calls := pool.calls + [Read(1, 1, SECOND, false)]);
            longer.Last() == Single(last, Ready, Free, false)
  {
    longer := TakeSingle(run, pool);
    longer := CallSingle(longer, Taken(pool), 0);
    var called := Taken(pool).(worker := Invoking(0), calls := pool.calls + [Read(1, 1, SECOND, false)]);
    assert Taken(pool).Look(0) == Read(1, 1, SECOND, false);
    longer := WorkSingle(longer, called, Finish, Ready, Free);
    longer := TerminateSingle(longer, called.(worker := LoopHead, finished := 2));
  }

  /** Completion counts tasks but does not tell them apart: here the second task is enqueued while the
      worker holds the first one's slot, and runs twice; the first never runs. Still every queue is empty,
      every callback has returned and the scheduler has terminated. */
  lemma SlotReuseLosesTask() returns (run: Run)
    ensures run.Valid() && |run.Last().threads| == 1 && !run.Last().running && |run.Last().pools| == 1
    ensures var pool := run.Last().pools[0];
            && pool.accepted == [FIRST, SECOND] && Distinct(pool.accepted)
            && pool.dequeued == pool.finished == 2
            && pool.calls == [Read(0, 1, SECOND, true), Read(1, 1, SECOND, false)]
  {
    run := HoldFirst();
    run := SubmitSingle(run, HELD, SECOND);
    var pool := WithTask(HELD, SECOND);
    assert pool.accepted == [FIRST, SECOND];
    run := CallSingle(run, pool, 1);
    assert pool.calls + [pool.Look(0)] == [Read(0, 1, SECOND, true)];
    var called := pool.(worker := Invoking(0), calls := [Read(0, 1, SECOND, true)]);
    run := WorkSingle(run, called, Finish, Ready, Free);
    run := FinishSecond(run, called.(worker := LoopHead, finished := 1));
  }

  /** The pool when the first callback runs, and when it has looked into its slot after the copy of the
      second task into it. */
  const CALLED := HELD.(worker := Invoking(0), calls := [Read(0, 0, FIRST, false)])
  const LOOKED := WithCopy(CALLED, SECOND).(looks := [Read(0, 1, SECOND, true)])

  /** A callback can find the next task in its slot before that is counted in `size`. */
  lemma CallbackSeesCopy() returns (run: Run)
    ensures run.Valid() && run.Last() == Single(LOOKED, Copied(0, SECOND), HeldBy(0), true)
    ensures LOOKED.ring.size < LOOKED.ring.Capacity() && LOOKED.calls == [Read(0, 0, FIRST, false)]
    ensures LOOKED.looks == [Read(0, 1, SECOND, true)]
  {
    run := HoldFirst();
    run := CallSingle(run, HELD, 0);
    assert HELD.calls + [HELD.Look(0)] == [Read(0, 0, FIRST, false)];
    run := CopySingle(run, CALLED, SECOND);
    var copied := WithCopy(CALLED, SECOND);
    run := WorkSingle(run, copied, ReadPackage, Copied(0, SECOND), HeldBy(0));
    assert copied.looks + [copied.Look(0)] == [Read(0, 1, SECOND, true)];
  }

  /** Calls that are all right do not make a run right: here each task is called once and in order, but
      the first callback, while it still runs, finds the second task in its slot. */
  lemma CallbackSeesNextTask() returns (run: Run)
    ensures run.Valid() && |run.Last().threads| == 1 && !run.Last().running && |run.Last().pools| == 1
    ensures var pool := run.Last().pools[0];
            && pool.accepted == [FIRST, SECOND] && Distinct(pool.accepted)
            && pool.dequeued == pool.finished == 2
            && pool.calls == [Read(0, 0, FIRST, false), Read(1, 1, SECOND, false)]
            && pool.looks == [Read(0, 1, SECOND, true)]
  {
    run := CallbackSeesCopy();
    run := CountSingle(run, LOOKED, SECOND);
    var counted := LOOKED.(ring := LOOKED.ring.(size := 1), counted := 2);
    assert counted.accepted == [FIRST, SECOND];
    run := WorkSingle(run, counted, Finish, Ready, Free);
    run := FinishSecond(run, counted.(worker := LoopHead, finished := 1));
  }

  /** The same with a second submitter. */
  function Pair(pool: Pool, owner: Thread, other: Thread, lock: Lock, running: bool): State {
    State([pool], [owner, other], lock, running, false)
  }

  const IDLE := FRESH.(worker := AtWait)
  const CHECKED := Checked(0, FIRST)

  /** The second thread has found room, and the first one starts to terminate. */
  lemma TerminateBeside() returns (run: Run)
    ensures run.Valid() && run.Last() == Pair(IDLE, Killing(0), CHECKED, Free, true)
  {
    run := Run([Pair(FRESH, Ready, Ready, Free, true)], []);
    assert Init(run.Last());
    run := Go(run, Choose(1, 0, FIRST), Pair(FRESH, Ready, Chosen(0, FIRST), Free, true));
    run := Go(run, CheckRoom(1), Pair(FRESH, Ready, CHECKED, Free, true));
    run := Go(run, Work(0, SeeNothing), Pair(IDLE, Ready, CHECKED, Free, true));
    run := Go(run, BeginWait(true), Pair(IDLE, Waiting(0, true), CHECKED, Free, true));
    run := Go(run, PassPool, Pair(IDLE, Waiting(1, true), CHECKED, Free, true));
    run := Go(run, EndWait, Pair(IDLE, Killing(0), CHECKED, Free, true));
  }

  const GONE := IDLE.(worker := Exited)

  lemma ToldBeside() returns (run: Run)
    ensures run.Valid() && run.Last() == Pair(GONE, Joining(0), CHECKED, Free, true)
  {
    run := TerminateBeside();
    var told := IDLE.(pending := {Terminate});
    assert IDLE.pending + {Terminate} == {Terminate};
    run := Go(run, Kill, Pair(told, Joining(0), CHECKED, Free, true));
    assert told.pending - {Terminate} == {};
    run := Go(run, Work(0, AcceptSignal(Terminate)), Pair(GONE, Joining(0), CHECKED, Free, true));
  }

  lemma GoneBeside() returns (run: Run)
    ensures run.Valid() && run.Last() == Pair(GONE, Ready, CHECKED, Free, false)
  {
    run := ToldBeside();
    run := Go(run, Join, Pair(GONE, Killing(1), CHECKED, Free, true));
    run := Go(run, EndTerminate, Pair(GONE, Ready, CHECKED, Free, false));
  }

  /** A submission that is under way while the scheduler is terminated is accepted and never run. */
  lemma TerminationDropsTask() returns (run: Run)
    ensures run.Valid() && |run.Last().threads| == 2 && !run.Last().running && |run.Last().pools| == 1
    ensures var pool := run.Last().pools[0];
            && pool.accepted == [FIRST] && pool.ring.size == 1
            && pool.worker == Exited && pool.dequeued == pool.finished == 0
  {
    run := GoneBeside();
    assert GONE.ring.slots[0 := FIRST] == [FIRST] && GONE.writers[0 := 0] == [0];
    run := Go(run, Copy(1), Pair(WithCopy(GONE, FIRST), Ready, Copied(0, FIRST), HeldBy(1), false));
    run := Go(run, Count(1), Pair(WithTask(GONE, FIRST), Ready, Enqueued(0), Free, false));
  }

  /** A submission can wake a worker that waits: here it is on its way back to its loop, with a package in
      its queue. */
  lemma WorkerIsWoken() returns (run: Run)
    ensures run.Valid() && run.steps != [] && run.steps[|run.steps| - 1] == Work(0, AcceptSignal(Continue))
    ensures |run.Last().pools| == 1
    ensures var pool := run.Last().pools[0];
            pool.worker == LoopHead && pool.pending == {} && pool.accepted == [FIRST] && pool.ring.size == 1
  {
    run := Start();
    run := Go(run, Work(0, SeeNothing), Single(IDLE, Ready, Free, true));
    run := CopySingle(run, IDLE, FIRST);
    var pool := WithTask(IDLE, FIRST);
    run := Go(run, Count(0), Single(pool, Enqueued(0), Free, true));
    var woken := pool.(pending := {Continue});
    assert pool.pending + {Continue} == {Continue} && woken.pending - {Continue} == {};
    run := Go(run, Notify(0, true), Single(woken, Ready, Free, true));
    run := Go(run, Work(0, AcceptSignal(Continue)), Single(pool.(worker := LoopHead), Ready, Free, true));
  }

  function NewPool(capacity: nat, worker: Worker): Pool {
    Pool(Ring(seq(capacity, i => TASK), 0, 0, 0), worker, {}, [], 0, 0, 0, seq(capacity, i => 0), [], [])
  }

  /** Of `n` pools the workers of the first `gone` have exited, and those before `idle` wait. */
  function Fleet(n: nat, capacity: nat, gone: nat, idle: nat): seq<Pool> {
    seq(n, i => NewPool(capacity, if i < gone then Exited else if i < idle then AtWait else LoopHead))
  }

  function Fleets(n: nat, capacity: nat, gone: nat, idle: nat, owner: Thread, running: bool): State {
    State(Fleet(n, capacity, gone, idle), [owner], Free, running, false)
  }

  lemma {:induction false} AllIdle(n: nat, capacity: nat, idle: nat) returns (run: Run)
    requires idle <= n && capacity < UINT_RANGE
    ensures run.Valid() && run.Last() == Fleets(n, capacity, 0, idle, Ready, true)
    decreases idle
  {
    if idle == 0 {
      run := Run([Fleets(n, capacity, 0, 0, Ready, true)], []);
      assert forall p :: 0 <= p < n ==> Fleet(n, capacity, 0, 0)[p] == NewPool(capacity, LoopHead);
      assert Init(run.Last());
    } else {
      run := AllIdle(n, capacity, idle - 1);
      var pools := Fleet(n, capacity, 0, idle - 1);
      assert pools[idle - 1] == NewPool(capacity, LoopHead);
      assert pools[idle - 1 := NewPool(capacity, AtWait)] == Fleet(n, capacity, 0, idle);
      run := Go(run, Work(idle - 1, SeeNothing), Fleets(n, capacity, 0, idle, Ready, true));
    }
  }

  lemma {:induction false} AllPassed(n: nat, capacity: nat, passed: nat) returns (run: Run)
    requires passed <= n && capacity < UINT_RANGE
    ensures run.Valid() && run.Last() == Fleets(n, capacity, 0, n, Waiting(passed, true), true)
    decreases passed
  {
    if passed == 0 {
      run := AllIdle(n, capacity, n);
      run := Go(run, BeginWait(true), Fleets(n, capacity, 0, n, Waiting(0, true), true));
    } else {
      run := AllPassed(n, capacity, passed - 1);
      assert Fleet(n, capacity, 0, n)[passed - 1] == NewPool(capacity, AtWait);
      run := Go(run, PassPool, Fleets(n, capacity, 0, n, Waiting(passed, true), true));
    }
  }

  lemma {:induction false} AllGone(n: nat, capacity: nat, gone: nat) returns (run: Run)
    requires gone <= n && capacity < UINT_RANGE
    ensures run.Valid() && run.Last() == Fleets(n, capacity, gone, n, Killing(gone), true)
    decreases gone
  {
    if gone == 0 {
      run := AllPassed(n, capacity, n);
      run := Go(run, EndWait, Fleets(n, capacity, 0, n, Killing(0), true));
    } else {
      run := AllGone(n, capacity, gone - 1);
      run := OneGone(run, n, capacity, gone - 1);
    }
  }

  lemma OneGone(run: Run, n: nat, capacity: nat, x: nat) returns (longer: Run)
    requires x < n && run.Valid() && run.Last() == Fleets(n, capacity, x, n, Killing(x), true)
    ensures longer.Valid() && longer.Last() == Fleets(n, capacity, x + 1, n, Killing(x + 1), true)
  {
    var pools, idle := Fleet(n, capacity, x, n), NewPool(capacity, AtWait);
    var told := idle.(pending := {Terminate});
    assert pools[x] == idle && idle.pending + {Terminate} == {Terminate};
    longer := Go(run, Kill, State(pools[x := told], [Joining(x)], Free, true, false));
    assert told.pending - {Terminate} == {};
    assert pools[x := told][x := NewPool(capacity, Exited)] == Fleet(n, capacity, x + 1, n);
    longer := Go(longer, Work(x, AcceptSignal(Terminate)), Fleets(n, capacity, x + 1, n, Joining(x), true));
    longer := Go(longer, Join, Fleets(n, capacity, x + 1, n, Killing(x + 1), true));
  }

  /** The terminate sequence can be completed, for every number of pools of every capacity. */
  lemma TerminatesEveryPool(n: nat, capacity: nat) returns (run: Run)
    requires capacity < UINT_RANGE
    ensures run.Valid() && |run.Last().pools| == n && !run.Last().running && run.Last().threads == [Ready]
    ensures forall p :: 0 <= p < n ==> run.Last().pools[p].worker.Exited?
  {
    run := AllGone(n, capacity, n);
    run := Go(run, EndTerminate, Fleets(n, capacity, n, n, Ready, false));
    assert forall p :: 0 <= p < n ==> Fleet(n, capacity, n, n)[p] == NewPool(capacity, Exited);
  }
}
