/** What becomes of one submission: where its package goes, step by step. */
module ProtocolSubmission {
  import opened Structures
  import opened Rings
  import opened Protocol
  import opened ProtocolInvariant
  import opened ProtocolResults

  /** The steps of thread `t` in a submission. */
  predicate IsOwn(step: Step, t: nat) {
    (step.Choose? || step.CheckRoom? || step.Copy? || step.Count? || step.Notify?) && step.t == t
  }

  function Own(steps: seq<Step>, t: nat): seq<Step> {
    if steps == [] then []
    else
      var last := steps[|steps| - 1];
      Own(steps[..|steps| - 1], t) + if IsOwn(last, t) then [last] else []
  }

  /** In step `j` thread `t` begins the submission of `task` to pool `p`, and it has not begun another one
      up to state `i`. */
  predicate Submits(run: Run, j: nat, i: nat, t: nat, p: nat, task: Package) {
    && j < i < |run.states| && |run.states| == |run.steps| + 1 && run.steps[j] == Choose(t, p, task)
    && forall k :: j < k < i ==> !(run.steps[k].Choose? && run.steps[k].t == t)
  }

  /** How far the submission has come is what the thread has done in it: it checks for room, and then
      either is done with it or copies, counts and notifies, in this order. */
  predicate Stage(thread: Thread, own: seq<Step>, t: nat, p: nat, task: Package) {
    match thread
    case Chosen(q, x) => own == [Choose(t, p, task)] && q == p && x == task
    case Checked(q, x) => own == [Choose(t, p, task), CheckRoom(t)] && q == p && x == task.(index := p)
    case Copied(q, x) => own == [Choose(t, p, task), CheckRoom(t), Copy(t)] && q == p && x == task.(index := p)
    case Enqueued(q) => own == [Choose(t, p, task), CheckRoom(t), Copy(t), Count(t)] && q == p
    case _ => own == [Choose(t, p, task), CheckRoom(t)] || Complete(own, t, p, task)
  }

  predicate Complete(own: seq<Step>, t: nat, p: nat, task: Package) {
    && |own| == 5 && own[..4] == [Choose(t, p, task), CheckRoom(t), Copy(t), Count(t)]
    && own[4].Notify? && own[4].t == t
  }

  /** A thread moves only by its own steps, and thread 0 when it is not submitting. */
  lemma OthersLeaveThread(s: State, step: Step, t: nat)
    requires Inv(s) && Enabled(s, step) && t < |s.threads| && !IsOwn(step, t)
    ensures |Apply(s, step).threads| == |s.threads|
    ensures Apply(s, step).threads[t] == s.threads[t]
         || (t == 0 && Settled(s.threads[0]) && Settled(Apply(s, step).threads[0]))
  {
    SamePoolCount(s, step);
    if step.Work? {
      WorkEffect(s, step.p, step.step);
    } else if step.Copy? {
      CopyEffect(s, step.t);
    } else if step.Count? {
      CountEffect(s, step.t);
    }
  }

  /** No submission of this thread is under way. */
  predicate Settled(thread: Thread) {
    !thread.Chosen? && !thread.Checked? && !thread.Copied? && !thread.Enqueued?
  }

  lemma OwnMovesThread(s: State, step: Step, own: seq<Step>, t: nat, p: nat, task: Package)
    requires Inv(s) && Enabled(s, step) && t < |s.threads| && Stage(s.threads[t], own, t, p, task)
    requires IsOwn(step, t) && !step.Choose?
    ensures |Apply(s, step).threads| == |s.threads| && Stage(Apply(s, step).threads[t], own + [step], t, p, task)
  {
    SamePoolCount(s, step);
    if step.Copy? {
      CopyEffect(s, step.t);
    } else if step.Count? {
      CountEffect(s, step.t);
    }
  }

  /** What every step does to the thread of a submission. */
  lemma ThreadStep(s: State, step: Step, own: seq<Step>, t: nat, p: nat, task: Package)
    requires Inv(s) && Enabled(s, step) && t < |s.threads| && Stage(s.threads[t], own, t, p, task)
    requires !(step.Choose? && step.t == t)
    ensures |Apply(s, step).threads| == |s.threads|
    ensures Stage(Apply(s, step).threads[t], own + if IsOwn(step, t) then [step] else [], t, p, task)
  {
    if IsOwn(step, t) {
      OwnMovesThread(s, step, own, t, p, task);
    } else {
      OthersLeaveThread(s, step, t);
      assert own + [] == own;
    }
  }

  /** A submission takes its steps in the order of the source, each once. */
  lemma {:induction false} SubmissionStages(run: Run, j: nat, i: nat, t: nat, p: nat, task: Package)
    requires run.Valid() && Submits(run, j, i, t, p, task)
    ensures t < |run.states[i].threads| && p < |run.states[i].pools|
    ensures Stage(run.states[i].threads[t], Own(run.steps[j..i], t), t, p, task)
    decreases i
  {
    assert run.StepAt(i - 1);
    RunKeeps(run, i - 1);
    SamePoolCount(run.states[i - 1], run.steps[i - 1]);
    assert run.steps[j..i][..i - 1 - j] == run.steps[j..i - 1];
    if i == j + 1 {
      assert run.steps[j..i] == [Choose(t, p, task)];
      assert run.steps[j..i - 1] == [];
    } else {
      SubmissionStages(run, j, i - 1, t, p, task);
      ThreadStep(run.states[i - 1], run.steps[i - 1], Own(run.steps[j..i - 1], t), t, p, task);
      assert run.steps[j..i][i - 1 - j] == run.steps[i - 1];
    }
  }

  /** Every later step of a submission has one that began it. */
  lemma {:induction false} BegunBefore(run: Run, i: nat, t: nat) returns (j: nat, p: nat, task: Package)
    requires run.Valid() && i < |run.states| && t < |run.states[i].threads|
    requires !Settled(run.states[i].threads[t])
    ensures Submits(run, j, i, t, p, task)
  {
    if i == 0 {
      assert false;
    } else {
      var s, step := run.states[i - 1], run.steps[i - 1];
      assert run.StepAt(i - 1);
      RunKeeps(run, i - 1);
      if step.Choose? && step.t == t {
        j, p, task := i - 1, step.p, step.task;
      } else {
        StillSubmitting(s, step, t);
        j, p, task := BegunBefore(run, i - 1, t);
      }
    }
  }

  lemma StillSubmitting(s: State, step: Step, t: nat)
    requires Inv(s) && Enabled(s, step) && !(step.Choose? && step.t == t)
    requires t < |Apply(s, step).threads| && !Settled(Apply(s, step).threads[t])
    ensures t < |s.threads| && !Settled(s.threads[t])
  {
    SamePoolCount(s, step);
    if !IsOwn(step, t) {
      OthersLeaveThread(s, step, t);
    }
  }

  /** The room test turns a submission away exactly if the ring of its pool is full, and changes no pool. */
  lemma RefusedWhenFull(run: Run, j: nat, i: nat, t: nat, p: nat, task: Package)
    requires run.Valid() && Submits(run, j, i, t, p, task) && i < |run.steps| && run.steps[i] == CheckRoom(t)
    ensures t < |run.states[i + 1].threads| && p < |run.states[i].pools|
    ensures run.states[i + 1].pools == run.states[i].pools
    ensures var ring := run.states[i].pools[p].ring;
            run.states[i + 1].threads[t].Ready? <==> ring.size >= ring.Capacity()
  {
    SubmissionStages(run, j, i, t, p, task);
    assert run.StepAt(i);
    RunKeeps(run, i);
  }

  /** The copy puts the package that was submitted, with the index of the pool it was submitted to, behind
      those accepted by that pool and into its tail slot; no other pool changes. */
  lemma CopiedToItsPool(run: Run, j: nat, i: nat, t: nat, p: nat, task: Package)
    requires run.Valid() && Submits(run, j, i, t, p, task) && i < |run.steps| && run.steps[i] == Copy(t)
    ensures p < |run.states[i].pools| == |run.states[i + 1].pools|
    ensures var before, after := run.states[i].pools[p], run.states[i + 1].pools[p];
            && after.accepted == before.accepted + [task.(index := p)]
            && before.ring.tail < |before.ring.slots|
            && after.ring == before.ring.(slots := before.ring.slots[before.ring.tail := task.(index := p)])
            && after.worker == before.worker && after.pending == before.pending
    ensures forall q :: 0 <= q < |run.states[i].pools| && q != p ==> run.states[i + 1].pools[q] == run.states[i].pools[q]
  {
    SubmissionStages(run, j, i, t, p, task);
    assert run.StepAt(i);
    RunKeeps(run, i);
    CopyEffect(run.states[i], t);
  }

  /** The count adds it to the size of that pool, and of no other. */
  lemma CountedInItsPool(run: Run, j: nat, i: nat, t: nat, p: nat, task: Package)
    requires run.Valid() && Submits(run, j, i, t, p, task) && i < |run.steps| && run.steps[i] == Count(t)
    ensures p < |run.states[i].pools| == |run.states[i + 1].pools|
    ensures var before, after := run.states[i].pools[p], run.states[i + 1].pools[p];
            && after.ring.size == before.ring.size + 1 && after.ring.slots == before.ring.slots
            && after.accepted == before.accepted && after.worker == before.worker && after.pending == before.pending
    ensures forall q :: 0 <= q < |run.states[i].pools| && q != p ==> run.states[i + 1].pools[q] == run.states[i].pools[q]
  {
    SubmissionStages(run, j, i, t, p, task);
    assert run.StepAt(i);
    RunKeeps(run, i);
    CountEffect(run.states[i], t);
  }

  /** The worker that is signalled is that of this pool, only if there is no more than one package in its
      queue, and it is told to continue. */
  lemma NotifiesItsPool(run: Run, j: nat, i: nat, t: nat, p: nat, task: Package, raise: bool)
    requires run.Valid() && Submits(run, j, i, t, p, task) && i < |run.steps| && run.steps[i] == Notify(t, raise)
    ensures p < |run.states[i].pools| == |run.states[i + 1].pools|
    ensures raise ==> run.states[i].pools[p].ring.size <= 1 && Continue in run.states[i + 1].pools[p].pending
    ensures !raise ==> run.states[i + 1].pools == run.states[i].pools
    ensures var before, after := run.states[i].pools[p], run.states[i + 1].pools[p];
            after.(pending := {}) == before.(pending := {}) && before.pending <= after.pending <= before.pending + {Continue}
    ensures forall q :: 0 <= q < |run.states[i].pools| && q != p ==> run.states[i + 1].pools[q] == run.states[i].pools[q]
  {
    SubmissionStages(run, j, i, t, p, task);
    assert run.StepAt(i);
    RunKeeps(run, i);
    var pools := run.states[i].pools;
    assert !raise ==> pools[p := pools[p].(pending := pools[p].pending)] == pools;
  }

  lemma CopyWasSubmitted(run: Run, i: nat, t: nat) returns (j: nat, p: nat, task: Package)
    requires run.Valid() && i < |run.steps| && run.steps[i] == Copy(t)
    ensures Submits(run, j, i, t, p, task)
  {
    assert run.StepAt(i);
    j, p, task := BegunBefore(run, i, t);
  }

  lemma AcceptedByCopy(run: Run, i: nat, q: nat)
    requires run.Valid() && i < |run.steps| && q < |run.states[i].pools|
    ensures q < |run.states[i + 1].pools|
    ensures run.steps[i].Copy? || run.states[i + 1].pools[q].accepted == run.states[i].pools[q].accepted
  {
    assert run.StepAt(i);
    RunKeeps(run, i);
    SamePoolCount(run.states[i], run.steps[i]);
    if !run.steps[i].Copy? {
      OnlyCopyAccepts(run.states[i], run.steps[i], q);
    }
  }

  /** No pool accepts anything in any other way: its tasks grow only by a copy of a thread whose last
      submission was to that pool, and then by the package of that submission. */
  lemma AcceptedWasSubmitted(run: Run, i: nat, q: nat) returns (j: nat, t: nat, task: Package)
    requires run.Valid() && i < |run.steps| && q < |run.states[i].pools| && q < |run.states[i + 1].pools|
    requires run.states[i + 1].pools[q].accepted != run.states[i].pools[q].accepted
    ensures run.steps[i] == Copy(t) && Submits(run, j, i, t, q, task)
    ensures run.states[i + 1].pools[q].accepted == run.states[i].pools[q].accepted + [task.(index := q)]
  {
    AcceptedByCopy(run, i, q);
    t := run.steps[i].t;
    var p;
    j, p, task := CopyWasSubmitted(run, i, t);
    CopiedToItsPool(run, j, i, t, p, task);
    assert p == q;
  }

  /** Whatever is in the history of a pool was submitted to that pool. */
  lemma {:induction false} Origin(run: Run, i: nat, q: nat, x: nat) returns (j: nat, t: nat, task: Package)
    requires run.Valid() && i < |run.states| && q < |run.states[i].pools| && x < |run.states[i].pools[q].accepted|
    ensures j < i && run.steps[j] == Choose(t, q, task)
    ensures run.states[i].pools[q].accepted[x] == task.(index := q)
  {
    if i == 0 {
      NothingAtFirst(run, q);
      assert false;
    } else {
      var before := run.states[i - 1].pools;
      PoolCountBefore(run, i - 1);
      AcceptedByCopy(run, i - 1, q);
      if run.states[i].pools[q].accepted == before[q].accepted {
        j, t, task := Origin(run, i - 1, q, x);
      } else {
        j, t, task := AcceptedWasSubmitted(run, i - 1, q);
        if x < |before[q].accepted| {
          j, t, task := Origin(run, i - 1, q, x);
        }
      }
    }
  }

  lemma NothingAtFirst(run: Run, q: nat)
    requires run.Valid() && q < |run.states[0].pools|
    ensures run.states[0].pools[q].accepted == []
  {
    assert InitialPool(run.states[0].pools[q]);
  }

  lemma PoolCountBefore(run: Run, i: nat)
    requires run.Valid() && i < |run.steps|
    ensures |run.states[i].pools| == |run.states[i + 1].pools|
  {
    assert run.StepAt(i);
    SamePoolCount(run.states[i], run.steps[i]);
  }

  lemma OnlyCopyAccepts(s: State, step: Step, q: nat)
    requires Inv(s) && Enabled(s, step) && q < |s.pools| && !step.Copy?
    ensures |Apply(s, step).pools| == |s.pools| && Apply(s, step).pools[q].accepted == s.pools[q].accepted
  {
    match step {
      case Work(p, w) => WorkEffect(s, p, w);
      case Count(t) => CountEffect(s, t);
      case _ => OthersKeepPools(s, step, q);
    }
  }
}
