/** The heap of pools rebuilt by several submitters at the same time: nothing locks the array, so the
    threads read and write single entries, and single keys, in any order. */
module HeapRace {
  import opened Structures
  import opened Arithmetic
  import opened HeapOrder

  /** Where a thread is in a submission, up to the choice of the pool: the outer loop is at `i`, the
      descent at `index`, and the rest are the local variables that are in use there. */
  datatype Thread =
    | Outside
    | Scanning(i: nat, index: nat, nth: nat, minChild: int, minChildIndex: nat)
    | AtChildKey(i: nat, index: nat, nth: nat, minChild: int, minChildIndex: nat, child: nat)
    | Smaller(i: nat, index: nat, nth: nat)
    | AtMinKey(i: nat, index: nat, nth: nat, child: nat)
    | AtA(i: nat, index: nat, minChildIndex: nat)
    | AtB(i: nat, index: nat, minChildIndex: nat, a: nat)
    | AtKeyA(i: nat, index: nat, minChildIndex: nat, a: nat, b: nat)
    | AtKeyB(i: nat, index: nat, minChildIndex: nat, a: nat, b: nat, keyA: int)
    | WriteParent(i: nat, index: nat, minChildIndex: nat, a: nat, b: nat)
    | WriteChild(i: nat, index: nat, minChildIndex: nat, a: nat)
    | AtRoot
    | Chosen(pool: nat)
  {
    /** In the part that rebuilds the heap. */
    predicate Rebuilding() {
      !Outside? && !AtRoot? && !Chosen?
    }
  }

  /** The array has the numbers of the pools as entries; `keys` is indexed by these numbers. */
  datatype State = State(breadth: nat, dheap: seq<nat>, keys: seq<Long>, threads: seq<Thread>) {
    function Size(): nat {
      |dheap|
    }

    /** The index of child `nth`, counted from one. */
    function Child(index: nat, nth: nat): nat {
      breadth * index + nth
    }

    function SetThread(t: nat, thread: Thread): State
      requires t < |threads|
    {
      this.(threads := threads[t := thread])
    }
  }

  /** A descent starts, or goes on, at node `index`. */
  function DescendFrom(i: nat, index: nat): Thread {
    Scanning(i, index, 1, LONG_MAX, 0)
  }

  /** A thread begins a submission, goes on with it, or somebody writes a key. */
  datatype Step = Enter(t: nat) | Advance(t: nat) | SetKey(p: nat, key: Long)

  predicate Enabled(s: State, step: Step) {
    match step
    case Enter(t) => t < |s.threads| && s.threads[t].Outside? && s.Size() > 0 && s.breadth > 0
    case Advance(t) => t < |s.threads| && !s.threads[t].Outside?
    case SetKey(p, _) => p < |s.keys|
  }

  /** The next access of a thread is to an entry of the array, or to the key of a pool. */
  predicate InBounds(s: State, thread: Thread) {
    match thread
    case AtChildKey(_, _, _, _, _, child) => child < |s.keys|
    case Smaller(_, index, nth) => s.Child(index, nth) < s.Size()
    case AtMinKey(_, _, _, child) => child < |s.keys|
    case AtA(_, index, _) => index < s.Size()
    case AtB(_, _, m, _) => m < s.Size()
    case AtKeyA(_, _, _, a, _) => a < |s.keys|
    case AtKeyB(_, _, _, _, b, _) => b < |s.keys|
    case WriteParent(_, index, _, _, _) => index < s.Size()
    case WriteChild(_, _, m, _) => m < s.Size()
    case AtRoot => s.Size() > 0
    case _ => true
  }

  /** What the next access of a thread leads to in its own state. */
  function Next(s: State, thread: Thread): Thread
    requires InBounds(s, thread)
  {
    match thread
    case Outside => Outside
    case Scanning(i, index, nth, minChild, m) =>
      var c := s.Child(index, nth);
      if nth > s.breadth then
        if minChild != LONG_MAX then AtA(i, index, m) else if i > 0 then DescendFrom(i - 1, i - 1) else AtRoot
      else if c < s.Size() then AtChildKey(i, index, nth, minChild, m, s.dheap[c])
      else Scanning(i, index, nth + 1, minChild, m)
    case AtChildKey(i, index, nth, minChild, m, child) =>
      if s.keys[child] < minChild then Smaller(i, index, nth) else Scanning(i, index, nth + 1, minChild, m)
    case Smaller(i, index, nth) => AtMinKey(i, index, nth, s.dheap[s.Child(index, nth)])
    case AtMinKey(i, index, nth, child) => Scanning(i, index, nth + 1, s.keys[child], s.Child(index, nth))
    case AtA(i, index, m) => AtB(i, index, m, s.dheap[index])
    case AtB(i, index, m, a) => AtKeyA(i, index, m, a, s.dheap[m])
    case AtKeyA(i, index, m, a, b) => AtKeyB(i, index, m, a, b, s.keys[a])
    case AtKeyB(i, index, m, a, b, keyA) =>
      if keyA > s.keys[b] then WriteParent(i, index, m, a, b) else DescendFrom(i, m)
    case WriteParent(i, index, m, a, b) => WriteChild(i, index, m, a)
    case WriteChild(i, index, m, a) => DescendFrom(i, m)
    case AtRoot => Chosen(s.dheap[0])
    case Chosen(_) => Outside
  }

  /** And in the array. */
  function NextHeap(s: State, thread: Thread): seq<nat>
    requires InBounds(s, thread)
  {
    match thread
    case WriteParent(i, index, m, a, b) => s.dheap[index := b]
    case WriteChild(i, index, m, a) => s.dheap[m := a]
    case _ => s.dheap
  }

  /** Steps are only defined inside the array; that they all are is proved below. */
  function Apply(s: State, step: Step): State
    requires Enabled(s, step) && (step.Advance? ==> InBounds(s, s.threads[step.t]))
  {
    match step
    case Enter(t) => var d := (s.Size() - 1) / s.breadth; s.SetThread(t, DescendFrom(d, d))
    case Advance(t) => s.SetThread(t, Next(s, s.threads[t])).(dheap := NextHeap(s, s.threads[t]))
    case SetKey(p, key) => s.(keys := s.keys[p := key])
  }

  /** `c` is child of `index`, as the scan computes it. */
  predicate ChildOf(s: State, index: nat, c: nat) {
    s.Child(index, 0) < c <= s.Child(index, s.breadth) && c < s.Size()
  }

  predicate ThreadOk(s: State, thread: Thread) {
    var n := s.Size();
    match thread
    case Outside => true
    case Scanning(i, index, nth, minChild, m) =>
      i < n && index < n && 1 <= nth <= s.breadth + 1 && (minChild != LONG_MAX ==> ChildOf(s, index, m))
    case AtChildKey(i, index, nth, minChild, m, child) =>
      i < n && index < n && 1 <= nth <= s.breadth && (minChild != LONG_MAX ==> ChildOf(s, index, m))
      && s.Child(index, nth) < n && child < n
    case Smaller(i, index, nth) => i < n && index < n && 1 <= nth <= s.breadth && s.Child(index, nth) < n
    case AtMinKey(i, index, nth, child) =>
      i < n && index < n && 1 <= nth <= s.breadth && s.Child(index, nth) < n && child < n
    case AtA(i, index, m) => i < n && index < n && ChildOf(s, index, m)
    case AtB(i, index, m, a) => i < n && index < n && ChildOf(s, index, m) && a < n
    case AtKeyA(i, index, m, a, b) => i < n && index < n && ChildOf(s, index, m) && a < n && b < n
    case AtKeyB(i, index, m, a, b, _) => i < n && index < n && ChildOf(s, index, m) && a < n && b < n
    case WriteParent(i, index, m, a, b) => i < n && index < n && ChildOf(s, index, m) && a < n && b < n
    case WriteChild(i, index, m, a) => i < n && index < n && ChildOf(s, index, m) && a < n
    case AtRoot => true
    case Chosen(p) => p < n
  }

  /** Every entry is a pool, whatever has been overwritten. */
  predicate Inv(s: State) {
    && s.breadth > 0 && s.Size() > 0 && |s.keys| == s.Size()
    && (forall j :: 0 <= j < s.Size() ==> s.dheap[j] < s.Size())
    && (forall t :: 0 <= t < |s.threads| ==> ThreadOk(s, s.threads[t]))
  }

  lemma AccessOk(s: State, thread: Thread)
    requires Inv(s) && ThreadOk(s, thread)
    ensures InBounds(s, thread) && |NextHeap(s, thread)| == s.Size()
    ensures forall j :: 0 <= j < s.Size() ==> NextHeap(s, thread)[j] < s.Size()
  {
  }

  lemma ChildInRange(s: State, index: nat, nth: nat)
    requires 1 <= nth <= s.breadth && s.Child(index, nth) < s.Size()
    ensures ChildOf(s, index, s.Child(index, nth))
  {
  }

  lemma ScanOk(s: State, thread: Thread)
    requires Inv(s) && ThreadOk(s, thread) && InBounds(s, thread)
    requires thread.Scanning? || thread.AtChildKey? || thread.Smaller?
    ensures ThreadOk(s, Next(s, thread))
  {
  }

  lemma MinKeyOk(s: State, thread: Thread)
    requires Inv(s) && ThreadOk(s, thread) && InBounds(s, thread) && thread.AtMinKey?
    ensures ThreadOk(s, Next(s, thread))
  {
    ChildInRange(s, thread.index, thread.nth);
  }

  lemma ExchangeOk(s: State, thread: Thread)
    requires Inv(s) && ThreadOk(s, thread) && InBounds(s, thread)
    requires !thread.Scanning? && !thread.AtChildKey? && !thread.Smaller? && !thread.AtMinKey?
    ensures ThreadOk(s, Next(s, thread))
  {
  }

  lemma NextOk(s: State, thread: Thread)
    requires Inv(s) && ThreadOk(s, thread)
    ensures InBounds(s, thread) && ThreadOk(s, Next(s, thread))
    ensures |NextHeap(s, thread)| == s.Size()
    ensures forall j :: 0 <= j < s.Size() ==> NextHeap(s, thread)[j] < s.Size()
  {
    AccessOk(s, thread);
    if thread.Scanning? || thread.AtChildKey? || thread.Smaller? {
      ScanOk(s, thread);
    } else if thread.AtMinKey? {
      MinKeyOk(s, thread);
    } else {
      ExchangeOk(s, thread);
    }
  }

  lemma StepKeeps(s: State, step: Step)
    requires Inv(s) && Enabled(s, step)
    ensures step.Advance? ==> InBounds(s, s.threads[step.t])
    ensures Inv(Apply(s, step))
  {
    match step {
      case Enter(t) =>
        StartInside(s.Size(), s.breadth);
        OthersOk(s, Apply(s, step), t);
      case Advance(t) =>
        assert ThreadOk(s, s.threads[t]);
        NextOk(s, s.threads[t]);
        OthersOk(s, Apply(s, step), t);
      case SetKey(p, key) =>
        forall t | 0 <= t < |s.threads|
          ensures ThreadOk(Apply(s, step), s.threads[t])
        {
          assert ThreadOk(s, s.threads[t]);
        }
    }
  }

  lemma StartInside(n: nat, k: nat)
    requires n > 0 && k > 0
    ensures (n - 1) / k < n
  {
    assert n - 1 == ((n - 1) / k) * k + (n - 1) % k;
    if (n - 1) / k > 0 {
      MulSign(k, (n - 1) / k);
      assert ((n - 1) / k) * k == k * ((n - 1) / k);
    }
  }

  /** Threads care for the array's size alone. */
  lemma OthersOk(s: State, s': State, t: nat)
    requires Inv(s) && t < |s.threads| && s'.breadth == s.breadth && s'.Size() == s.Size()
    requires |s'.threads| == |s.threads| && s'.threads == s.threads[t := s'.threads[t]] && ThreadOk(s, s'.threads[t])
    ensures forall u :: 0 <= u < |s'.threads| ==> ThreadOk(s', s'.threads[u])
  {
    forall u | 0 <= u < |s'.threads|
      ensures ThreadOk(s', s'.threads[u])
    {
      assert u != t ==> ThreadOk(s, s.threads[u]);
    }
  }

  /** The pools in order, no thread in a submission. */
  predicate Init(s: State) {
    && s.breadth > 0 && s.Size() > 0 && |s.keys| == s.Size()
    && (forall j :: 0 <= j < s.Size() ==> s.dheap[j] == j)
    && (forall t :: 0 <= t < |s.threads| ==> s.threads[t] == Outside)
  }

  datatype Run = Run(states: seq<State>, steps: seq<Step>) {
    predicate Valid() {
      && |states| == |steps| + 1
      && Init(states[0])
      && forall i :: 0 <= i < |steps| ==> StepAt(i)
    }

    /** Step `i` is defined and leads to the next state. */
    predicate StepAt(i: nat)
      requires i < |steps| && |states| == |steps| + 1
    {
      && Enabled(states[i], steps[i])
      && (steps[i].Advance? ==> InBounds(states[i], states[i].threads[steps[i].t]))
      && states[i + 1] == Apply(states[i], steps[i])
    }

    function Last(): State
      requires |states| > 0
    {
      states[|states| - 1]
    }
  }

  lemma {:induction false} RunKeeps(run: Run, i: nat)
    requires run.Valid() && i < |run.states|
    ensures Inv(run.states[i]) && run.states[i].Size() == run.states[0].Size()
    ensures run.states[i].breadth == run.states[0].breadth
  {
    if i > 0 {
      RunKeeps(run, i - 1);
      assert run.StepAt(i - 1);
      StepKeeps(run.states[i - 1], run.steps[i - 1]);
      SameSize(run.states[i - 1], run.steps[i - 1]);
    } else {
      forall t | 0 <= t < |run.states[0].threads|
        ensures ThreadOk(run.states[0], run.states[0].threads[t])
      {
        assert run.states[0].threads[t] == Outside;
      }
    }
  }

  lemma SameSize(s: State, step: Step)
    requires Enabled(s, step) && (step.Advance? ==> InBounds(s, s.threads[step.t]))
    ensures Apply(s, step).Size() == s.Size() && |Apply(s, step).threads| == |s.threads|
    ensures Apply(s, step).breadth == s.breadth
  {
  }

  /** Whatever the interleaving of any number of submitters and key writers: every access is inside the
      array, every entry is a pool, and a pool is chosen. */
  lemma EntriesArePools(run: Run, i: nat, t: nat)
    requires run.Valid() && i < |run.states| && t < |run.states[i].threads|
    ensures var s := run.states[i];
            && InBounds(s, s.threads[t])
            && (forall j :: 0 <= j < s.Size() ==> s.dheap[j] < s.Size())
            && (s.threads[t].Chosen? ==> s.threads[t].pool < s.Size())
  {
    RunKeeps(run, i);
    var s := run.states[i];
    assert ThreadOk(s, s.threads[t]);
    NextOk(s, s.threads[t]);
  }

  /** More than the number of steps between the starts of two descents from node to node. */
  function Round(k: nat): nat {
    4 * k + 8
  }

  /** How many nodes a thread may still visit: all that is below its node, and the descents to come. */
  function Visits(s: State, i: nat, index: nat): nat
    requires s.breadth > 0
  {
    SumHeights(i, s.Size(), s.breadth) + i + Height(index, s.Size(), s.breadth) + 1
  }

  /** A bound on the steps a thread has left in its submission. */
  function Left(s: State, thread: Thread): int
    requires s.breadth > 0
  {
    var k := s.breadth;
    match thread
    case Outside => 0
    case Chosen(_) => 1
    case AtRoot => 2
    case Scanning(i, index, nth, _, _) => Visits(s, i, index) * Round(k) - 4 * (nth - 1)
    case AtChildKey(i, index, nth, _, _, _) => Visits(s, i, index) * Round(k) - 4 * (nth - 1) - 1
    case Smaller(i, index, nth) => Visits(s, i, index) * Round(k) - 4 * (nth - 1) - 2
    case AtMinKey(i, index, nth, _) => Visits(s, i, index) * Round(k) - 4 * (nth - 1) - 3
    case AtA(i, index, _) => Visits(s, i, index) * Round(k) - 4 * k - 1
    case AtB(i, index, _, _) => Visits(s, i, index) * Round(k) - 4 * k - 2
    case AtKeyA(i, index, _, _, _) => Visits(s, i, index) * Round(k) - 4 * k - 3
    case AtKeyB(i, index, _, _, _, _) => Visits(s, i, index) * Round(k) - 4 * k - 4
    case WriteParent(i, index, _, _, _) => Visits(s, i, index) * Round(k) - 4 * k - 5
    case WriteChild(i, index, _, _) => Visits(s, i, index) * Round(k) - 4 * k - 6
  }

  /** Going to a child, or to the next start, uses up a visit. */
  lemma VisitsDown(s: State, i: nat, index: nat, m: nat)
    requires s.breadth > 0 && ChildOf(s, index, m)
    ensures Visits(s, i, m) * Round(s.breadth) + Round(s.breadth) <= Visits(s, i, index) * Round(s.breadth)
  {
    FirstChildIs(index, s.breadth);
    ParentBlock(index, m, s.breadth);
    HeightOfChild(index, m, s.Size(), s.breadth);
    MulStep(Visits(s, i, m), Visits(s, i, index), Round(s.breadth));
  }

  lemma VisitsNext(s: State, i: nat, index: nat)
    requires s.breadth > 0 && i > 0
    ensures Visits(s, i - 1, i - 1) * Round(s.breadth) + Round(s.breadth) <= Visits(s, i, index) * Round(s.breadth)
  {
    MulStep(Visits(s, i - 1, i - 1), Visits(s, i, index), Round(s.breadth));
  }

  lemma VisitsLast(s: State, i: nat, index: nat)
    requires s.breadth > 0
    ensures Visits(s, i, index) * Round(s.breadth) >= Round(s.breadth)
  {
    MulSign(Visits(s, i, index), Round(s.breadth));
  }

  /** Every step of a thread brings it closer to the end of its submission, whatever others do to the
      array and the keys. */
  lemma Progress(s: State, thread: Thread)
    requires Inv(s) && ThreadOk(s, thread) && !thread.Outside?
    ensures InBounds(s, thread) && 0 <= Left(s, Next(s, thread)) < Left(s, thread)
  {
    if thread.Scanning? || thread.AtChildKey? || thread.Smaller? || thread.AtMinKey? {
      ScanProgress(s, thread);
    } else {
      ExchangeProgress(s, thread);
    }
  }

  lemma ScanProgress(s: State, thread: Thread)
    requires Inv(s) && ThreadOk(s, thread)
    requires thread.Scanning? || thread.AtChildKey? || thread.Smaller? || thread.AtMinKey?
    ensures InBounds(s, thread) && 0 <= Left(s, Next(s, thread)) < Left(s, thread)
  {
    AccessOk(s, thread);
    VisitsLast(s, thread.i, thread.index);
    if thread.Scanning? && thread.i > 0 {
      VisitsNext(s, thread.i, thread.index);
      VisitsLast(s, thread.i - 1, thread.i - 1);
    }
  }

  lemma ExchangeProgress(s: State, thread: Thread)
    requires Inv(s) && ThreadOk(s, thread) && !thread.Outside?
    requires !thread.Scanning? && !thread.AtChildKey? && !thread.Smaller? && !thread.AtMinKey?
    ensures InBounds(s, thread) && 0 <= Left(s, Next(s, thread)) < Left(s, thread)
  {
    AccessOk(s, thread);
    match thread {
      case AtKeyB(i, index, m, _, _, _) =>
        VisitsDown(s, i, index, m);
        VisitsLast(s, i, m);
      case WriteChild(i, index, m, _) =>
        VisitsDown(s, i, index, m);
        VisitsLast(s, i, m);
      case Chosen(_) =>
      case AtRoot =>
      case AtA(i, index, _) => VisitsLast(s, i, index);
      case AtB(i, index, _, _) => VisitsLast(s, i, index);
      case AtKeyA(i, index, _, _, _) => VisitsLast(s, i, index);
      case WriteParent(i, index, _, _, _) => VisitsLast(s, i, index);
    }
  }

  /** The number of steps of thread `t`. */
  function Own(steps: seq<Step>, t: nat): nat {
    if steps == [] then 0
    else Own(steps[..|steps| - 1], t) + if steps[|steps| - 1] == Advance(t) then 1 else 0
  }

  /** A submission takes a number of own steps that is bounded when it begins: it cannot be kept from
      ending by others that rebuild the heap at the same time. */
  lemma {:induction false} OwnStepsBounded(run: Run, i: nat, j: nat, t: nat)
    requires run.Valid() && i <= j < |run.states| && t < |run.states[i].threads|
    requires forall k :: i <= k < j ==> run.steps[k] != Enter(t)
    ensures t < |run.states[j].threads| && run.states[i].breadth > 0 && run.states[j].breadth > 0
    ensures 0 <= Left(run.states[j], run.states[j].threads[t])
    ensures Own(run.steps[i..j], t) + Left(run.states[j], run.states[j].threads[t])
         <= Left(run.states[i], run.states[i].threads[t])
    decreases j
  {
    RunKeeps(run, i);
    if i == j {
      assert ThreadOk(run.states[i], run.states[i].threads[t]);
      LeftNat(run.states[i], run.states[i].threads[t]);
    } else {
      OwnStepsBounded(run, i, j - 1, t);
      RunKeeps(run, j - 1);
      assert run.StepAt(j - 1);
      assert run.steps[i..j][..j - 1 - i] == run.steps[i..j - 1];
      LeftStep(run.states[j - 1], run.steps[j - 1], t);
    }
  }

  lemma LeftNat(s: State, thread: Thread)
    requires Inv(s) && ThreadOk(s, thread)
    ensures Left(s, thread) >= 0
  {
    if !thread.Outside? {
      Progress(s, thread);
    }
  }

  lemma LeftStep(s: State, step: Step, t: nat)
    requires Inv(s) && Enabled(s, step) && t < |s.threads| && step != Enter(t)
    requires step.Advance? ==> InBounds(s, s.threads[step.t])
    requires 0 <= Left(s, s.threads[t])
    ensures t < |Apply(s, step).threads| && Apply(s, step).breadth > 0
    ensures 0 <= Left(Apply(s, step), Apply(s, step).threads[t])
    ensures Left(Apply(s, step), Apply(s, step).threads[t]) + (if step == Advance(t) then 1 else 0)
         <= Left(s, s.threads[t])
  {
    SameSize(s, step);
    SameLeft(s, Apply(s, step), Apply(s, step).threads[t]);
    if step == Advance(t) {
      assert ThreadOk(s, s.threads[t]);
      Progress(s, s.threads[t]);
    }
  }

  lemma SameLeft(s: State, s': State, thread: Thread)
    requires s.breadth > 0 && s'.Size() == s.Size() && s'.breadth == s.breadth
    ensures Left(s', thread) == Left(s, thread)
  {
  }

  /** The bound at the beginning is linear in the number of pools. */
  lemma LeftAtEnter(s: State, t: nat)
    requires Inv(s) && Enabled(s, Enter(t)) && s.breadth >= 2
    ensures Left(Apply(s, Enter(t)), Apply(s, Enter(t)).threads[t]) <= 2 * s.Size() * Round(s.breadth)
  {
    var n, k := s.Size(), s.breadth;
    var d := (n - 1) / k;
    StartInside(n, k);
    SumHeightsMonotone(d + 1, n, n, k);
    SumHeightsLinear(n, k);
    SameLeft(s, Apply(s, Enter(t)), DescendFrom(d, d));
    assert Visits(s, d, d) == SumHeights(d + 1, n, k) + d + 1 <= 2 * n;
    if Visits(s, d, d) < 2 * n {
      MulStep(Visits(s, d, d), 2 * n, Round(k));
    }
  }

  /** At most one thread rebuilds the heap. */
  predicate TakesTurns(s: State) {
    forall t, u :: 0 <= t < |s.threads| && 0 <= u < |s.threads| && s.threads[t].Rebuilding() && s.threads[u].Rebuilding()
                   ==> t == u
  }

  /** What a thread has read is still there. */
  predicate Current(s: State, thread: Thread) {
    match thread
    case AtB(_, index, _, a) => index < s.Size() && a == s.dheap[index]
    case AtKeyA(_, index, m, a, b) => index < s.Size() && m < s.Size() && a == s.dheap[index] && b == s.dheap[m]
    case AtKeyB(_, index, m, a, b, _) => index < s.Size() && m < s.Size() && a == s.dheap[index] && b == s.dheap[m]
    case WriteParent(_, index, m, a, b) => index < s.Size() && m < s.Size() && a == s.dheap[index] && b == s.dheap[m]
    case _ => true
  }

  function Everyone(n: nat): multiset<nat> {
    multiset(seq(n, i => i))
  }

  /** The heap lists every pool once, or will do so after the pending write of one thread. */
  predicate ListsAll(s: State, thread: Thread) {
    if thread.WriteChild? then
      thread.minChildIndex < s.Size() && multiset(s.dheap[thread.minChildIndex := thread.a]) == Everyone(s.Size())
    else multiset(s.dheap) == Everyone(s.Size())
  }

  predicate TurnInv(s: State) {
    && (forall t :: 0 <= t < |s.threads| ==> s.threads[t].Rebuilding() ==> Current(s, s.threads[t]) && ListsAll(s, s.threads[t]))
    && ((forall t :: 0 <= t < |s.threads| ==> !s.threads[t].Rebuilding()) ==> multiset(s.dheap) == Everyone(s.Size()))
  }

  /** A step of the only thread that rebuilds. */
  lemma TurnNext(s: State, thread: Thread)
    requires Inv(s) && ThreadOk(s, thread) && thread.Rebuilding() && Current(s, thread) && ListsAll(s, thread)
    ensures InBounds(s, thread) && |NextHeap(s, thread)| == s.Size()
    ensures var s' := s.(dheap := NextHeap(s, thread));
            Current(s', Next(s, thread)) && ListsAll(s', Next(s, thread))
  {
    NextOk(s, thread);
    if thread.WriteParent? {
      SwapIsPermutation(s.dheap, thread.index, thread.minChildIndex);
    }
  }

  lemma TurnEnter(s: State, t: nat)
    requires TurnInv(s) && Enabled(s, Enter(t)) && TakesTurns(Apply(s, Enter(t)))
    ensures TurnInv(Apply(s, Enter(t)))
  {
    var s' := Apply(s, Enter(t));
    forall u | 0 <= u < |s.threads|
      ensures !s.threads[u].Rebuilding() && (u != t ==> !s'.threads[u].Rebuilding())
    {
      assert s'.threads[t].Rebuilding() && (u != t ==> s'.threads[u] == s.threads[u]);
    }
  }

  /** The invariant for one thread and the array. */
  predicate TurnOk(s: State, thread: Thread) {
    if thread.Rebuilding() then Current(s, thread) && ListsAll(s, thread) else multiset(s.dheap) == Everyone(s.Size())
  }

  lemma TurnOfOne(s: State, t: nat)
    requires t < |s.threads| && TurnOk(s, s.threads[t])
    requires forall u :: 0 <= u < |s.threads| && u != t ==> !s.threads[u].Rebuilding()
    ensures TurnInv(s)
  {
  }

  lemma TurnRebuild(s: State, t: nat)
    requires Inv(s) && TurnInv(s) && TakesTurns(s) && t < |s.threads| && s.threads[t].Rebuilding()
    ensures InBounds(s, s.threads[t]) && TurnInv(Apply(s, Advance(t)))
  {
    var thread := s.threads[t];
    assert ThreadOk(s, thread) && Current(s, thread) && ListsAll(s, thread);
    TurnNext(s, thread);
    var s' := Apply(s, Advance(t));
    SameTurn(s.(dheap := s'.dheap), s', Next(s, thread));
    TurnOfOne(s', t);
  }

  lemma TurnAdvance(s: State, t: nat)
    requires Inv(s) && TurnInv(s) && TakesTurns(s) && Enabled(s, Advance(t)) && InBounds(s, s.threads[t])
    ensures TurnInv(Apply(s, Advance(t)))
  {
    if s.threads[t].Rebuilding() {
      TurnRebuild(s, t);
    } else {
      var s' := Apply(s, Advance(t));
      forall u | 0 <= u < |s.threads|
        ensures s'.threads[u].Rebuilding() == s.threads[u].Rebuilding()
        ensures s'.threads[u].Rebuilding() ==> Current(s', s'.threads[u]) && ListsAll(s', s'.threads[u])
      {
        SameTurn(s, s', s.threads[u]);
      }
    }
  }

  lemma SameTurn(s: State, s': State, thread: Thread)
    requires s'.dheap == s.dheap
    ensures Current(s', thread) == Current(s, thread) && ListsAll(s', thread) == ListsAll(s, thread)
  {
  }

  lemma TurnStep(s: State, step: Step)
    requires Inv(s) && TurnInv(s) && TakesTurns(s) && Enabled(s, step)
    requires step.Advance? ==> InBounds(s, s.threads[step.t])
    requires TakesTurns(Apply(s, step))
    ensures TurnInv(Apply(s, step))
  {
    match step {
      case Enter(t) => TurnEnter(s, t);
      case Advance(t) => TurnAdvance(s, t);
      case SetKey(_, _) =>
        forall t | 0 <= t < |s.threads|
          ensures s.threads[t].Rebuilding() ==>
                    Current(Apply(s, step), s.threads[t]) && ListsAll(Apply(s, step), s.threads[t])
        {
          SameTurn(s, Apply(s, step), s.threads[t]);
        }
    }
  }

  predicate TakeTurns(run: Run) {
    forall i :: 0 <= i < |run.states| ==> TakesTurns(run.states[i])
  }

  lemma {:induction false} TurnRun(run: Run, i: nat)
    requires run.Valid() && i < |run.states| && TakeTurns(run)
    ensures TurnInv(run.states[i])
  {
    if i > 0 {
      TurnRun(run, i - 1);
      RunKeeps(run, i - 1);
      assert run.StepAt(i - 1) && TakesTurns(run.states[i - 1]) && TakesTurns(run.states[i]);
      TurnStep(run.states[i - 1], run.steps[i - 1]);
    } else {
      var s := run.states[0];
      assert s.dheap == seq(s.Size(), j => j);
      assert forall t :: 0 <= t < |s.threads| ==> s.threads[t] == Outside;
    }
  }

  /** If submitters take turns in rebuilding the heap, it lists every pool once in every state in which no
      exchange is half done; the keys may change at any time. */
  lemma TurnsKeepPools(run: Run, i: nat)
    requires run.Valid() && i < |run.states| && TakeTurns(run)
    requires forall t :: 0 <= t < |run.states[i].threads| ==> !run.states[i].threads[t].WriteChild?
    ensures multiset(run.states[i].dheap) == Everyone(run.states[i].Size())
  {
    TurnRun(run, i);
  }

  /** A single submitter always does. */
  lemma {:induction false} SoleTakesTurns(run: Run, i: nat)
    requires run.Valid() && i < |run.states| && |run.states[0].threads| == 1
    ensures |run.states[i].threads| == 1 && TakesTurns(run.states[i])
  {
    if i > 0 {
      SoleTakesTurns(run, i - 1);
      assert run.StepAt(i - 1);
      SameSize(run.states[i - 1], run.steps[i - 1]);
    }
  }

  /** An exchange made of stale reads keeps the listing exactly if the two entries are, in one order or
      the other, the two that were read. */
  lemma StaleExchange(dheap: seq<nat>, index: nat, m: nat, a: nat, b: nat)
    requires index < |dheap| && m < |dheap| && index != m
    ensures multiset(dheap[index := b][m := a]) == multiset(dheap)
       <==> (a == dheap[index] && b == dheap[m]) || (a == dheap[m] && b == dheap[index])
  {
    var after := dheap[index := b][m := a];
    forall p
      ensures multiset(after)[p] == multiset(dheap)[p] - Is(dheap[index], p) - Is(dheap[m], p) + Is(a, p) + Is(b, p)
    {
      UpdateCount(dheap, index, b, p);
      UpdateCount(dheap[index := b], m, a, p);
    }
    if multiset(after) == multiset(dheap) {
      assert forall p :: multiset(after)[p] == multiset(dheap)[p] ==> Is(dheap[index], p) + Is(dheap[m], p) == Is(a, p) + Is(b, p);
      assert Is(dheap[index], a) + Is(dheap[m], a) == Is(a, a) + Is(b, a);
      assert Is(dheap[index], b) + Is(dheap[m], b) == Is(a, b) + Is(b, b);
    }
  }

  function Is(x: nat, p: nat): int {
    if x == p then 1 else 0
  }

  lemma UpdateCount(s: seq<nat>, i: nat, v: nat, p: nat)
    requires i < |s|
    ensures multiset(s[i := v])[p] == multiset(s)[p] - Is(s[i], p) + Is(v, p)
  {
    assert s[i] in multiset(s);
  }

  /** The thread may still write pool `p` into the heap, or has chosen it. */
  predicate Holds(thread: Thread, p: nat) {
    match thread
    case AtB(_, _, _, a) => a == p
    case AtKeyA(_, _, _, a, b) => a == p || b == p
    case AtKeyB(_, _, _, a, b, _) => a == p || b == p
    case WriteParent(_, _, _, a, b) => a == p || b == p
    case WriteChild(_, _, _, a) => a == p
    case Chosen(pool) => pool == p
    case _ => false
  }

  /** Pool `p` is nowhere. */
  predicate Lost(s: State, p: nat) {
    p !in s.dheap && forall t :: 0 <= t < |s.threads| ==> !Holds(s.threads[t], p)
  }

  lemma LostStep(s: State, step: Step, p: nat)
    requires Enabled(s, step) && (step.Advance? ==> InBounds(s, s.threads[step.t])) && Lost(s, p)
    ensures Lost(Apply(s, step), p)
  {
    var s' := Apply(s, step);
    if step.Advance? {
      assert !Holds(s.threads[step.t], p);
    }
    forall t | 0 <= t < |s'.threads|
      ensures !Holds(s'.threads[t], p)
    {
      assert !Holds(s.threads[t], p);
    }
  }

  /** A pool that is lost is lost for ever: no submission that leaves the choice to the heap gets it. */
  lemma {:induction false} LostForEver(run: Run, i: nat, j: nat, p: nat)
    requires run.Valid() && i <= j < |run.states| && Lost(run.states[i], p)
    ensures Lost(run.states[j], p)
    ensures forall t :: 0 <= t < |run.states[j].threads| ==> run.states[j].threads[t] != Chosen(p)
    decreases j
  {
    if i < j {
      LostForEver(run, i, j - 1, p);
      assert run.StepAt(j - 1);
      LostStep(run.states[j - 1], run.steps[j - 1], p);
    }
    assert forall t :: 0 <= t < |run.states[j].threads| ==> !Holds(run.states[j].threads[t], p);
  }
}
