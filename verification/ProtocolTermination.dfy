/** What waiting for the pools and terminating the scheduler promise, and to whom. */
module ProtocolTermination {
  import opened Structures
  import opened Rings
  import opened Protocol
  import opened ProtocolInvariant
  import opened ProtocolResults

  /** A worker that has been told to exit. */
  predicate Doomed(pool: Pool) {
    Terminate in pool.pending || pool.worker.Exited?
  }

  predicate ExitedBelow(s: State, n: nat) {
    forall p :: 0 <= p < n && p < |s.pools| ==> s.pools[p].worker.Exited?
  }

  /** How many workers the owner of the scheduler has told to exit. */
  function DoomedBelow(s: State): nat
    requires |s.threads| > 0
  {
    if !s.running then |s.pools|
    else match s.threads[0]
      case Killing(x) => x
      case Joining(x) => x + 1
      case _ => 0
  }

  /** How far the terminate sequence has come, whatever other threads do. */
  predicate OwnerInv(s: State) {
    && |s.threads| > 0
    && var owner := s.threads[0];
       && (owner.Waiting? ==> s.running && owner.i <= |s.pools|)
       && (owner.Killing? ==> s.running && owner.x <= |s.pools| && ExitedBelow(s, owner.x))
       && (owner.Joining? ==> s.running && owner.x < |s.pools| && ExitedBelow(s, owner.x))
       && (!s.running ==> owner.Submitting() && ExitedBelow(s, |s.pools|))
       && (forall p :: 0 <= p < |s.pools| ==> (Doomed(s.pools[p]) <==> p < DoomedBelow(s)))
  }

  /** A worker that has exited stays away, and one is told to exit exactly when its turn has come. */
  predicate Advances(s: State, p: nat, pool: Pool)
    requires |s.threads| > 0 && p < |s.pools|
  {
    && (s.pools[p].worker.Exited? ==> pool.worker.Exited?)
    && (Doomed(pool) <==> p < DoomedBelow(s))
  }

  /** The invariant, except that nothing is said of whether worker `p` has been told to exit. */
  predicate OwnerButFor(s: State, p: nat) {
    && |s.threads| > 0
    && var owner := s.threads[0];
       && (owner.Waiting? ==> s.running && owner.i <= |s.pools|)
       && (owner.Killing? ==> s.running && owner.x <= |s.pools| && ExitedBelow(s, owner.x))
       && (owner.Joining? ==> s.running && owner.x < |s.pools| && ExitedBelow(s, owner.x))
       && (!s.running ==> owner.Submitting() && ExitedBelow(s, |s.pools|))
       && (forall q :: 0 <= q < |s.pools| && q != p ==> (Doomed(s.pools[q]) <==> q < DoomedBelow(s)))
  }

  lemma OwnerReplace(s: State, p: nat, pool: Pool, lock: Lock)
    requires OwnerButFor(s, p) && p < |s.pools| && Advances(s, p, pool)
    ensures OwnerInv(s.SetPool(p, pool).(lock := lock))
  {
    var s' := s.SetPool(p, pool).(lock := lock);
    assert forall q :: 0 <= q < |s.pools| && q != p ==> s'.pools[q] == s.pools[q];
  }

  lemma OwnerThread(s: State, t: nat, thread: Thread)
    requires OwnerInv(s) && t < |s.threads| && (t == 0 ==> s.threads[0].Submitting() && thread.Submitting())
    ensures OwnerInv(s.SetThread(t, thread))
  {
  }

  lemma WorkAdvances(pool: Pool, w: WorkerStep, p: nat)
    requires WorkerEnabled(pool, w) && !WorkerFaults(pool, w)
    ensures pool.worker.Exited? ==> WorkerNext(pool, w, p).worker.Exited?
    ensures Doomed(WorkerNext(pool, w, p)) <==> Doomed(pool)
  {
  }

  lemma OwnerWork(s: State, p: nat, w: WorkerStep)
    requires Inv(s) && OwnerInv(s) && Enabled(s, Work(p, w))
    ensures OwnerInv(Apply(s, Work(p, w)))
  {
    WorkEffect(s, p, w);
    WorkAdvances(s.pools[p], w, p);
    OwnerReplace(s, p, WorkerNext(s.pools[p], w, p), s.lock);
  }

  /** Both halves of an enqueue. */
  lemma OwnerSection(s: State, step: Step)
    requires Inv(s) && OwnerInv(s) && Enabled(s, step) && (step.Copy? || step.Count?)
    ensures OwnerInv(Apply(s, step))
  {
    var t, s' := step.t, Apply(s, step);
    var p := s.threads[t].pool;
    if step.Copy? {
      CopyEffect(s, t);
    } else {
      CountEffect(s, t);
    }
    OwnerReplace(s, p, s'.pools[p], s'.lock);
    OwnerThread(s.SetPool(p, s'.pools[p]).(lock := s'.lock), t, s'.threads[t]);
  }

  lemma OwnerNotify(s: State, t: nat, raise: bool)
    requires OwnerInv(s) && Enabled(s, Notify(t, raise))
    ensures OwnerInv(Apply(s, Notify(t, raise)))
  {
    var p := s.threads[t].pool;
    var pool := Apply(s, Notify(t, raise)).pools[p];
    OwnerReplace(s, p, pool, s.lock);
    OwnerThread(s.SetPool(p, pool), t, Ready);
  }

  lemma OwnerKill(s: State)
    requires OwnerInv(s) && Enabled(s, Kill)
    ensures OwnerInv(Apply(s, Kill))
  {
    var x := s.threads[0].x;
    OwnerReplace(s.SetThread(0, Joining(x)), x, Apply(s, Kill).pools[x], s.lock);
  }

  lemma OwnerMoves(s: State, step: Step)
    requires OwnerInv(s) && Enabled(s, step)
    requires step.BeginWait? || step.PassPool? || step.EndWait? || step.Join? || step.EndTerminate?
    ensures OwnerInv(Apply(s, step))
  {
  }

  lemma OwnerStep(s: State, step: Step)
    requires Inv(s) && OwnerInv(s) && Enabled(s, step)
    ensures OwnerInv(Apply(s, step))
  {
    match step {
      case Work(p, w) => OwnerWork(s, p, w);
      case RaiseSignal(p, _) => OwnerReplace(s, p, Apply(s, step).pools[p], s.lock);
      case Choose(t, p, task) => OwnerThread(s, t, Chosen(p, task));
      case CheckRoom(t) => OwnerThread(s, t, Apply(s, step).threads[t]);
      case Copy(_) => OwnerSection(s, step);
      case Count(_) => OwnerSection(s, step);
      case Notify(t, raise) => OwnerNotify(s, t, raise);
      case RetryPool =>
      case Kill => OwnerKill(s);
      case _ => OwnerMoves(s, step);
    }
  }

  lemma {:induction false} OwnerRun(run: Run, i: nat)
    requires run.Valid() && i < |run.states|
    ensures OwnerInv(run.states[i])
  {
    if i == 0 {
      forall p | 0 <= p < |run.states[0].pools|
        ensures !Doomed(run.states[0].pools[p])
      {
        assert InitialPool(run.states[0].pools[p]);
      }
    } else {
      OwnerRun(run, i - 1);
      RunKeeps(run, i - 1);
      assert run.StepAt(i - 1);
      OwnerStep(run.states[i - 1], run.steps[i - 1]);
    }
  }

  /** The worker that terminate waits for has been told to exit, and so has none after it; the ones before
      it are gone. */
  lemma JoinsWhoWasTold(run: Run, i: nat, p: nat)
    requires run.Valid() && i < |run.states| && p < |run.states[i].pools|
    ensures |run.states[i].threads| > 0
    ensures var owner := run.states[i].threads[0];
            && (owner.Joining? ==> (Doomed(run.states[i].pools[p]) <==> p <= owner.x))
            && (owner.Killing? ==> (Doomed(run.states[i].pools[p]) <==> p < owner.x))
            && (owner.Joining? || owner.Killing? ==> p < owner.x ==> run.states[i].pools[p].worker.Exited?)
            && (run.states[i].running && !owner.Joining? && !owner.Killing? ==> !Doomed(run.states[i].pools[p]))
  {
    OwnerRun(run, i);
  }

  /** What ends a worker's wait: it accepts the signal to continue or the one to terminate, and goes back
      to its loop or exits. A signal that is accepted was pending. */
  lemma LeavesWait(run: Run, i: nat, p: nat)
    requires run.Valid() && i < |run.steps| && p < |run.states[i].pools| && run.states[i].pools[p].worker == AtWait
    ensures p < |run.states[i + 1].pools|
    ensures var step, before, after := run.steps[i], run.states[i].pools[p], run.states[i + 1].pools[p];
            && (step == Work(p, AcceptSignal(Continue)) ==> after.worker == LoopHead)
            && (step == Work(p, AcceptSignal(Terminate)) ==> after.worker == Exited)
            && (step != Work(p, AcceptSignal(Continue)) && step != Work(p, AcceptSignal(Terminate)) ==> after.worker == AtWait)
            && (forall signal :: step == Work(p, AcceptSignal(signal)) ==> signal in before.pending)
  {
    assert run.StepAt(i);
    RunKeeps(run, i);
    AnyStep(run.states[i], run.steps[i], p);
  }

  /** A signal stays pending until it is accepted by the worker it was sent to. */
  lemma PendingStays(run: Run, i: nat, p: nat, signal: Signal)
    requires run.Valid() && i < |run.steps| && p < |run.states[i].pools| && signal in run.states[i].pools[p].pending
    ensures p < |run.states[i + 1].pools|
    ensures signal in run.states[i + 1].pools[p].pending <==> run.steps[i] != Work(p, AcceptSignal(signal))
  {
    assert run.StepAt(i);
    RunKeeps(run, i);
    AnyStep(run.states[i], run.steps[i], p);
  }

  /** The steps of other workers, and of submitters, do not touch worker `p` and its signals. */
  lemma AnyStep(s: State, step: Step, p: nat)
    requires Inv(s) && Enabled(s, step) && p < |s.pools|
    ensures |Apply(s, step).pools| == |s.pools|
    ensures var before, after := s.pools[p], Apply(s, step).pools[p];
            && (forall w :: step == Work(p, w) ==> !WorkerFaults(before, w) && after == WorkerNext(before, w, p))
            && (!(step.Work? && step.p == p) ==> after.worker == before.worker && before.pending <= after.pending)
  {
    SamePoolCount(s, step);
    match step {
      case Work(q, w) => WorkEffect(s, q, w);
      case Copy(t) => CopyEffect(s, t);
      case Count(t) => CountEffect(s, t);
      case _ =>
    }
  }

  /** No submission is under way. */
  predicate NoSubmission(s: State) {
    forall t :: 0 <= t < |s.threads| ==>
      !s.threads[t].Chosen? && !s.threads[t].Checked? && !s.threads[t].Copied? && !s.threads[t].Enqueued?
  }

  predicate OwnerWaits(s: State) {
    |s.threads| > 0 && s.threads[0].Waiting?
  }

  /** An empty queue stays empty when no submission is under way. */
  lemma EmptyStep(s: State, step: Step, p: nat)
    requires Inv(s) && NoSubmission(s) && Enabled(s, step) && p < |s.pools| && s.pools[p].ring.size == 0
    ensures p < |Apply(s, step).pools| && Apply(s, step).pools[p].ring.size == 0
  {
    if step.Work? {
      WorkEffect(s, step.p, step.step);
    } else {
      OthersKeepPools(s, step, p);
    }
  }

  /** Only a submitter in the middle of its enqueue leaves a package uncounted. */
  lemma NoCopyUnderWay(s: State, p: nat)
    requires Inv(s) && NoSubmission(s) && p < |s.pools|
    ensures !s.pools[p].CopyUnderWay()
  {
    assert LockInv(s, p);
  }

  predicate EmptyBelow(s: State, n: nat) {
    forall p :: 0 <= p < n && p < |s.pools| ==> s.pools[p].ring.size == 0
  }

  lemma EmptyBelowStep(s: State, step: Step, n: nat)
    requires Inv(s) && NoSubmission(s) && Enabled(s, step) && EmptyBelow(s, n)
    ensures |Apply(s, step).pools| == |s.pools| && EmptyBelow(Apply(s, step), n)
  {
    SamePoolCount(s, step);
    forall p | 0 <= p < n && p < |s.pools|
      ensures Apply(s, step).pools[p].ring.size == 0
    {
      EmptyStep(s, step, p);
    }
  }

  /** From state `from` to state `to` thread 0 waits and no other thread submits. */
  predicate QuietWait(run: Run, from: nat, to: nat) {
    forall k :: from <= k <= to && k < |run.states| ==> OwnerWaits(run.states[k]) && NoSubmission(run.states[k])
  }

  /** A queue that is empty at some time during such a wait is empty from then on. */
  lemma {:induction false} WaitingKeepsEmpty(run: Run, i: nat, j: nat, p: nat)
    requires run.Valid() && i <= j < |run.states| && QuietWait(run, i, j)
    requires p < |run.states[i].pools| && run.states[i].pools[p].ring.size == 0
    ensures p < |run.states[j].pools| && run.states[j].pools[p].ring.size == 0
    decreases j
  {
    if i < j {
      WaitingKeepsEmpty(run, i, j - 1, p);
      RunKeeps(run, j - 1);
      assert run.StepAt(j - 1) && NoSubmission(run.states[j - 1]);
      EmptyStep(run.states[j - 1], run.steps[j - 1], p);
    }
  }

  /** One step of the wait: pools passed before are still empty, and so is the one passed now. */
  lemma WaitStep(s: State, step: Step)
    requires Inv(s) && OwnerWaits(s) && NoSubmission(s) && Enabled(s, step) && EmptyBelow(s, s.threads[0].i)
    requires OwnerWaits(Apply(s, step))
    ensures EmptyBelow(Apply(s, step), Apply(s, step).threads[0].i)
  {
    EmptyBelowStep(s, step, s.threads[0].i);
  }

  lemma {:induction false} PassedAreEmpty(run: Run, j: nat, i: nat)
    requires run.Valid() && j < i < |run.states| && run.steps[j].BeginWait? && QuietWait(run, j + 1, i)
    ensures OwnerWaits(run.states[i]) && EmptyBelow(run.states[i], run.states[i].threads[0].i)
    decreases i
  {
    assert OwnerWaits(run.states[i]);
    assert run.StepAt(i - 1);
    if j + 1 < i {
      PassedAreEmpty(run, j, i - 1);
      RunKeeps(run, i - 1);
      assert NoSubmission(run.states[i - 1]);
      WaitStep(run.states[i - 1], run.steps[i - 1]);
    }
  }

  /** How many pools have been passed. */
  function Passes(steps: seq<Step>): nat {
    if steps == [] then 0 else Passes(steps[..|steps| - 1]) + if steps[|steps| - 1] == PassPool then 1 else 0
  }

  /** A wait passes one pool after the other; an unsuccessful test neither skips a pool nor goes back. */
  lemma {:induction false} PassesInTurn(run: Run, j: nat, i: nat)
    requires run.Valid() && j < i < |run.states| && run.steps[j].BeginWait?
    requires forall k :: j < k <= i ==> OwnerWaits(run.states[k])
    ensures OwnerWaits(run.states[i])
    ensures run.states[i].threads[0] == Waiting(Passes(run.steps[j + 1..i]), run.steps[j].terminating)
    decreases i
  {
    assert run.StepAt(i - 1);
    if j + 1 < i {
      PassesInTurn(run, j, i - 1);
      RunKeeps(run, i - 1);
      WaitThread(run.states[i - 1], run.steps[i - 1]);
      assert run.steps[j + 1..i][..i - 2 - j] == run.steps[j + 1..i - 1];
    }
  }

  lemma WaitThread(s: State, step: Step)
    requires Inv(s) && Enabled(s, step) && OwnerWaits(s) && OwnerWaits(Apply(s, step))
    ensures Apply(s, step).threads[0].terminating == s.threads[0].terminating
    ensures Apply(s, step).threads[0].i == s.threads[0].i + if step == PassPool then 1 else 0
  {
    SamePoolCount(s, step);
    if step.Work? {
      WorkEffect(s, step.p, step.step);
    } else if step.Copy? {
      CopyEffect(s, step.t);
    } else if step.Count? {
      CountEffect(s, step.t);
    }
  }

  /** Quiescence: when a wait during which no submission is under way returns, all queues are empty at
      the same moment. Other threads may submit before it and after it. */
  lemma QuiescentOnReturn(run: Run, j: nat, i: nat)
    requires run.Valid() && j < i < |run.steps| && run.steps[j].BeginWait? && run.steps[i] == EndWait
    requires QuietWait(run, j + 1, i)
    ensures EmptyBelow(run.states[i], |run.states[i].pools|)
    ensures EmptyBelow(run.states[i + 1], |run.states[i + 1].pools|)
  {
    PassedAreEmpty(run, j, i);
    assert run.StepAt(i);
  }

  /** What the wait does not promise: when it returns, every accepted task has been dequeued, but one is
      unfinished for each worker that still holds a package. */
  lemma UnfinishedOnReturn(run: Run, j: nat, i: nat, p: nat)
    requires run.Valid() && j < i < |run.steps| && run.steps[j].BeginWait? && run.steps[i] == EndWait
    requires QuietWait(run, j + 1, i) && p < |run.states[i].pools|
    ensures var pool := run.states[i].pools[p];
            && pool.dequeued == |pool.accepted|
            && (pool.finished == |pool.accepted| <==> !pool.worker.HoldsPackage())
  {
    QuiescentOnReturn(run, j, i);
    RunKeeps(run, i);
    assert NoSubmission(run.states[i]) && PoolInv(run.states[i].pools[p], p);
    NoCopyUnderWay(run.states[i], p);
  }

  /** The scheduler is being terminated, or has been. */
  predicate Terminating(s: State)
    requires |s.threads| > 0
  {
    var owner := s.threads[0];
    !s.running || (owner.Waiting? && owner.terminating) || owner.Killing? || owner.Joining?
  }

  predicate Quiet(s: State) {
    |s.threads| > 0 && (Terminating(s) ==> NoSubmission(s))
  }

  /** Whoever submits has stopped before the scheduler is terminated. */
  predicate QuietRun(run: Run) {
    forall i :: 0 <= i < |run.states| ==> Quiet(run.states[i])
  }

  /** With a single submitter, which is also the thread that terminates, every run is like this. */
  lemma SoleIsQuiet(run: Run)
    requires run.Valid() && |run.states[0].threads| == 1
    ensures QuietRun(run)
  {
    forall i | 0 <= i < |run.states|
      ensures Quiet(run.states[i])
    {
      SoleThread(run, i);
    }
  }

  lemma {:induction false} SoleThread(run: Run, i: nat)
    requires run.Valid() && i < |run.states| && |run.states[0].threads| == 1
    ensures |run.states[i].threads| == 1 && Quiet(run.states[i])
    ensures !run.states[i].running ==> run.states[i].threads[0] == Ready
  {
    if i > 0 {
      SoleThread(run, i - 1);
      OwnerRun(run, i - 1);
      assert run.StepAt(i - 1);
      SamePoolCount(run.states[i - 1], run.steps[i - 1]);
    }
  }

  /** What is known to be empty, as a number of pools. */
  function KnownEmpty(s: State): nat
    requires |s.threads| > 0
  {
    var owner := s.threads[0];
    if !Terminating(s) then 0 else if owner.Waiting? then owner.i else |s.pools|
  }

  /** What is empty once the scheduler is being terminated. */
  predicate EmptyInv(s: State)
    requires |s.threads| > 0
  {
    EmptyBelow(s, KnownEmpty(s))
  }

  /** It grows only by the pool the owner sees empty. */
  lemma KnownEmptyStep(s: State, step: Step)
    requires OwnerInv(s) && Quiet(s) && Enabled(s, step)
    ensures |Apply(s, step).threads| > 0
    ensures var n, n' := KnownEmpty(s), KnownEmpty(Apply(s, step));
            n' <= n || (step.PassPool? && n' == n + 1 <= |s.pools| && s.pools[n].ring.size == 0)
  {
    SamePoolCount(s, step);
  }

  lemma QuietStep(s: State, step: Step)
    requires Inv(s) && OwnerInv(s) && Quiet(s) && EmptyInv(s) && Enabled(s, step)
    ensures |Apply(s, step).threads| > 0 && EmptyInv(Apply(s, step))
  {
    KnownEmptyStep(s, step);
    if Terminating(s) {
      EmptyBelowStep(s, step, KnownEmpty(s));
    }
  }

  lemma {:induction false} EmptyRun(run: Run, i: nat)
    requires run.Valid() && i < |run.states| && QuietRun(run)
    ensures |run.states[i].threads| > 0 && EmptyInv(run.states[i])
  {
    if i > 0 {
      EmptyRun(run, i - 1);
      RunKeeps(run, i - 1);
      OwnerRun(run, i - 1);
      assert run.StepAt(i - 1) && Quiet(run.states[i - 1]);
      QuietStep(run.states[i - 1], run.steps[i - 1]);
    }
  }

  /** A worker is told to exit, and exits, only when its queue is empty. */
  lemma ExitsOnlyWhenEmpty(run: Run, i: nat, p: nat)
    requires run.Valid() && i < |run.states| && QuietRun(run) && p < |run.states[i].pools|
    requires Doomed(run.states[i].pools[p])
    ensures run.states[i].pools[p].ring.size == 0
  {
    OwnerRun(run, i);
    EmptyRun(run, i);
  }

  /** Termination drops nothing: once the scheduler has been terminated, every accepted task has been
      dequeued and its callback has returned, and every worker is gone. */
  lemma TerminationDropsNothing(run: Run, i: nat, p: nat)
    requires run.Valid() && i < |run.states| && QuietRun(run)
    requires !run.states[i].running && p < |run.states[i].pools|
    ensures var pool := run.states[i].pools[p];
            pool.worker.Exited? && |pool.accepted| == pool.dequeued == pool.finished == |pool.calls|
  {
    RunKeeps(run, i);
    OwnerRun(run, i);
    EmptyRun(run, i);
    assert Quiet(run.states[i]) && PoolInv(run.states[i].pools[p], p);
    NoCopyUnderWay(run.states[i], p);
  }

  /** If, moreover, the ring was never full while a package was held, each accepted task was run once
      and in order, and no callback saw another task. */
  lemma TerminationRunsEverything(run: Run, i: nat, p: nat)
    requires run.Valid() && i < |run.states| && QuietRun(run)
    requires !run.states[i].running && p < |run.states[i].pools| && NeverFullInFlight(run, p)
    ensures var pool := run.states[i].pools[p]; |pool.calls| == |pool.accepted| && RunsAccepted(pool)
  {
    TerminationDropsNothing(run, i, p);
    PrefixOfAccepted(run, i, p);
  }

  /** A terminated scheduler accepts nothing any more, once the submissions under way have ended. */
  lemma {:induction false} NothingAfterwards(run: Run, j: nat, i: nat, p: nat)
    requires run.Valid() && j <= i < |run.states| && p < |run.states[j].pools|
    requires !run.states[j].running && NoSubmission(run.states[j])
    ensures !run.states[i].running && NoSubmission(run.states[i])
    ensures p < |run.states[i].pools| && run.states[i].pools[p].accepted == run.states[j].pools[p].accepted
    decreases i
  {
    if j < i {
      NothingAfterwards(run, j, i - 1, p);
      RunKeeps(run, i - 1);
      OwnerRun(run, i - 1);
      assert run.StepAt(i - 1);
      StaysStopped(run.states[i - 1], run.steps[i - 1], p);
    }
  }

  lemma StaysStopped(s: State, step: Step, p: nat)
    requires Inv(s) && OwnerInv(s) && Enabled(s, step) && !s.running && NoSubmission(s) && p < |s.pools|
    ensures !Apply(s, step).running && NoSubmission(Apply(s, step)) && |Apply(s, step).pools| == |s.pools|
    ensures Apply(s, step).pools[p].accepted == s.pools[p].accepted
  {
    match step {
      case Work(q, w) => WorkEffect(s, q, w);
      case _ => OthersKeepPools(s, step, p);
    }
  }

  /** In step `j` the worker of pool `p` finds its queue empty, and it is not woken again before state `i`. */
  predicate LastLook(run: Run, j: nat, i: nat, p: nat) {
    && j < i < |run.states| && |run.steps| == |run.states| - 1
    && run.steps[j] == Work(p, SeeNothing)
    && forall k :: j < k < i ==> run.steps[k] != Work(p, AcceptSignal(Continue))
  }

  /** A worker that waits or has exited has had such a last look, and has dequeued nothing since. */
  lemma {:induction false} LookedLast(run: Run, i: nat, p: nat) returns (j: nat)
    requires run.Valid() && i < |run.states| && p < |run.states[i].pools|
    requires var w := run.states[i].pools[p].worker; w.AtWait? || w.Exited?
    ensures LastLook(run, j, i, p) && p < |run.states[j].pools|
    ensures run.states[i].pools[p].dequeued == run.states[j].pools[p].counted
    ensures run.states[j].pools[p].ring.size == 0
  {
    if i == 0 {
      assert false;
    } else {
      var s, step := run.states[i - 1], run.steps[i - 1];
      assert run.StepAt(i - 1);
      RunKeeps(run, i - 1);
      SamePoolCount(s, step);
      if step == Work(p, SeeNothing) {
        SeesNothing(s, p);
        j := i - 1;
      } else {
        IdleStep(s, step, p);
        j := LookedLast(run, i - 1, p);
      }
    }
  }

  lemma SeesNothing(s: State, p: nat)
    requires Inv(s) && Enabled(s, Work(p, SeeNothing))
    ensures s.pools[p].ring.size == 0 && s.pools[p].dequeued == s.pools[p].counted
    ensures Apply(s, Work(p, SeeNothing)).pools[p].dequeued == s.pools[p].dequeued
  {
    assert PoolInv(s.pools[p], p);
  }

  lemma IdleStep(s: State, step: Step, p: nat)
    requires Inv(s) && Enabled(s, step) && p < |s.pools| && |Apply(s, step).pools| == |s.pools|
    requires Apply(s, step).pools[p].worker.AtWait? || Apply(s, step).pools[p].worker.Exited?
    requires step != Work(p, SeeNothing)
    ensures s.pools[p].worker.AtWait? || s.pools[p].worker.Exited?
    ensures Apply(s, step).pools[p].dequeued == s.pools[p].dequeued
    ensures step != Work(p, AcceptSignal(Continue))
  {
    match step {
      case Work(q, w) => WorkEffect(s, q, w);
      case Copy(_) => SectionKeepsWorker(s, step, p);
      case Count(_) => SectionKeepsWorker(s, step, p);
      case _ => OthersKeepPools(s, step, p);
    }
  }

  lemma SectionKeepsWorker(s: State, step: Step, p: nat)
    requires Inv(s) && Enabled(s, step) && (step.Copy? || step.Count?) && p < |s.pools|
    ensures |Apply(s, step).pools| == |s.pools|
    ensures Apply(s, step).pools[p].worker == s.pools[p].worker
    ensures Apply(s, step).pools[p].dequeued == s.pools[p].dequeued
    ensures s.pools[p].accepted <= Apply(s, step).pools[p].accepted
  {
    if step.Copy? {
      CopyEffect(s, step.t);
    } else {
      CountEffect(s, step.t);
    }
  }

  lemma {:induction false} AcceptedGrows(run: Run, j: nat, i: nat, p: nat)
    requires run.Valid() && j <= i < |run.states| && p < |run.states[j].pools|
    ensures p < |run.states[i].pools| && run.states[j].pools[p].accepted <= run.states[i].pools[p].accepted
    decreases i
  {
    if j < i {
      AcceptedGrows(run, j, i - 1, p);
      RunKeeps(run, i - 1);
      assert run.StepAt(i - 1);
      AcceptStep(run.states[i - 1], run.steps[i - 1], p);
    }
  }

  lemma AcceptStep(s: State, step: Step, p: nat)
    requires Inv(s) && Enabled(s, step) && p < |s.pools|
    ensures |Apply(s, step).pools| == |s.pools| && s.pools[p].accepted <= Apply(s, step).pools[p].accepted
  {
    match step {
      case Work(q, w) => WorkEffect(s, q, w);
      case Copy(_) => SectionKeepsWorker(s, step, p);
      case Count(_) => SectionKeepsWorker(s, step, p);
      case _ => OthersKeepPools(s, step, p);
    }
  }

  /** Whatever other threads do, the tasks that a terminated scheduler has dropped are exactly those
      counted in after the worker last found its queue empty. So nothing was dropped if and only if no
      package was being copied at that time and none has been copied since. */
  lemma TerminationDrops(run: Run, i: nat, p: nat) returns (j: nat)
    requires run.Valid() && i < |run.states| && !run.states[i].running && p < |run.states[i].pools|
    ensures LastLook(run, j, i, p) && p < |run.states[j].pools|
    ensures var pool, last := run.states[i].pools[p], run.states[j].pools[p];
            && pool.worker.Exited? && last.accepted <= pool.accepted
            && pool.finished == pool.dequeued == |pool.calls| == last.counted
            && (pool.finished == |pool.accepted| <==> pool.accepted == last.accepted && !last.CopyUnderWay())
  {
    RunKeeps(run, i);
    OwnerRun(run, i);
    assert PoolInv(run.states[i].pools[p], p);
    j := LookedLast(run, i, p);
    RunKeeps(run, j);
    assert PoolInv(run.states[j].pools[p], p);
    AcceptedGrows(run, j, i, p);
  }
}
