/** Two submitters that rebuild the heap at the same time can lose a pool. */
module HeapRaceWitnesses {
  import opened Structures
  import opened HeapRace

  /** One more step of a run, into a given state. */
  lemma Go(run: Run, step: Step, next: State) returns (longer: Run)
    requires run.Valid() && Enabled(run.Last(), step)
    requires step.Advance? ==> HeapRace.InBounds(run.Last(), run.Last().threads[step.t])
    requires Apply(run.Last(), step) == next
    ensures longer.Valid() && longer.Last() == next && longer.states[0] == run.states[0]
  {
    longer := Run(run.states + [next], run.steps + [step]);
    forall i | 0 <= i < |longer.steps|
      ensures longer.StepAt(i)
    {
      if i < |run.steps| {
        assert run.StepAt(i);
        assert longer.states[i] == run.states[i] && longer.states[i + 1] == run.states[i + 1];
      }
    }
  }

  /** Three pools in a heap of breadth four, which is a root with two children. */
  predicate Three(s: State, t: nat) {
    && s.breadth == 4 && |s.dheap| == |s.keys| == 3 && t < |s.threads|
    && forall j :: 0 <= j < 3 ==> s.dheap[j] < 3 && s.keys[j] < LONG_MAX
  }

  /** A step of thread `t` that only changes its own state. */
  lemma Act(run: Run, s: State, t: nat, thread: Thread) returns (longer: Run)
    requires run.Valid() && t < |s.threads| && run.Last() == s.SetThread(t, thread) && !thread.Outside?
    requires HeapRace.InBounds(s, thread) && NextHeap(s, thread) == s.dheap
    ensures longer.Valid() && longer.Last() == s.SetThread(t, Next(s, thread)) && longer.states[0] == run.states[0]
  {
    assert s.SetThread(t, thread).SetThread(t, Next(s, thread)) == s.SetThread(t, Next(s, thread));
    longer := Go(run, Advance(t), s.SetThread(t, Next(s, thread)));
  }

  function Key(s: State, j: nat): int
    requires j < |s.dheap| && s.dheap[j] < |s.keys|
  {
    s.keys[s.dheap[j]]
  }

  /** The scan up to its second child. */
  lemma ScanFirst(run: Run, s: State, t: nat) returns (longer: Run)
    requires Three(s, t) && run.Valid() && run.Last() == s.SetThread(t, DescendFrom(0, 0))
    ensures longer.Valid() && longer.states[0] == run.states[0]
    ensures longer.Last() == s.SetThread(t, AtChildKey(0, 0, 2, Key(s, 1), 1, s.dheap[2]))
  {
    longer := Act(run, s, t, DescendFrom(0, 0));
    longer := Act(longer, s, t, AtChildKey(0, 0, 1, LONG_MAX, 0, s.dheap[1]));
    longer := Act(longer, s, t, Smaller(0, 0, 1));
    longer := Act(longer, s, t, AtMinKey(0, 0, 1, s.dheap[1]));
    longer := Act(longer, s, t, Scanning(0, 0, 2, Key(s, 1), 1));
  }

  function MinChild(s: State): nat
    requires Three(s, 0)
  {
    if Key(s, 2) < Key(s, 1) then 2 else 1
  }

  lemma ScanSecond(run: Run, s: State, t: nat) returns (longer: Run)
    requires Three(s, 0) && Three(s, t) && run.Valid()
    requires run.Last() == s.SetThread(t, AtChildKey(0, 0, 2, Key(s, 1), 1, s.dheap[2]))
    ensures longer.Valid() && longer.states[0] == run.states[0]
    ensures longer.Last() == s.SetThread(t, AtA(0, 0, MinChild(s)))
  {
    var m := MinChild(s);
    longer := Act(run, s, t, AtChildKey(0, 0, 2, Key(s, 1), 1, s.dheap[2]));
    if m == 2 {
      longer := Act(longer, s, t, Smaller(0, 0, 2));
      longer := Act(longer, s, t, AtMinKey(0, 0, 2, s.dheap[2]));
    }
    longer := Act(longer, s, t, Scanning(0, 0, 3, Key(s, m), m));
    longer := Act(longer, s, t, Scanning(0, 0, 4, Key(s, m), m));
    longer := Act(longer, s, t, Scanning(0, 0, 5, Key(s, m), m));
  }

  /** From the beginning to just before the exchange of the root with its least child. */
  lemma UpToExchange(run: Run, s: State, t: nat) returns (longer: Run)
    requires Three(s, 0) && Three(s, t) && run.Valid() && s.threads[t] == Outside && run.Last() == s
    requires Key(s, 0) > Key(s, MinChild(s))
    ensures longer.Valid() && longer.states[0] == run.states[0]
    ensures longer.Last() == s.SetThread(t, WriteParent(0, 0, MinChild(s), s.dheap[0], s.dheap[MinChild(s)]))
  {
    var m := MinChild(s);
    var a, b := s.dheap[0], s.dheap[m];
    longer := Go(run, Enter(t), s.SetThread(t, DescendFrom(0, 0)));
    longer := ScanFirst(longer, s, t);
    longer := ScanSecond(longer, s, t);
    longer := Act(longer, s, t, AtA(0, 0, m));
    longer := Act(longer, s, t, AtB(0, 0, m, a));
    longer := Act(longer, s, t, AtKeyA(0, 0, m, a, b));
    longer := Act(longer, s, t, AtKeyB(0, 0, m, a, b, s.keys[a]));
  }

  /** Down to a leaf, and out with the root. */
  lemma LeafAndOut(run: Run, s: State, t: nat, m: nat) returns (longer: Run)
    requires Three(s, t) && 1 <= m < 3 && run.Valid() && run.Last() == s.SetThread(t, DescendFrom(0, m))
    ensures longer.Valid() && longer.states[0] == run.states[0] && longer.Last() == s.SetThread(t, Outside)
  {
    longer := Act(run, s, t, DescendFrom(0, m));
    longer := Act(longer, s, t, Scanning(0, m, 2, LONG_MAX, 0));
    longer := Act(longer, s, t, Scanning(0, m, 3, LONG_MAX, 0));
    longer := Act(longer, s, t, Scanning(0, m, 4, LONG_MAX, 0));
    longer := Act(longer, s, t, Scanning(0, m, 5, LONG_MAX, 0));
    longer := Act(longer, s, t, AtRoot);
    longer := Act(longer, s, t, Chosen(s.dheap[0]));
  }

  lemma Exchange(run: Run, s: State, t: nat, m: nat, a: nat, b: nat) returns (longer: Run)
    requires Three(s, t) && 1 <= m < 3 && a < 3 && b < 3 && run.Valid()
    requires run.Last() == s.SetThread(t, WriteParent(0, 0, m, a, b))
    ensures longer.Valid() && longer.states[0] == run.states[0]
    ensures longer.Last() == s.(dheap := s.dheap[0 := b][m := a]).SetThread(t, Outside)
  {
    var first := s.(dheap := s.dheap[0 := b]);
    var second := s.(dheap := s.dheap[0 := b][m := a]);
    assert s.SetThread(t, WriteParent(0, 0, m, a, b)).SetThread(t, WriteChild(0, 0, m, a)).(dheap := first.dheap)
        == first.SetThread(t, WriteChild(0, 0, m, a));
    longer := Go(run, Advance(t), first.SetThread(t, WriteChild(0, 0, m, a)));
    assert first.SetThread(t, WriteChild(0, 0, m, a)).SetThread(t, DescendFrom(0, m)).(dheap := second.dheap)
        == second.SetThread(t, DescendFrom(0, m));
    longer := Go(longer, Advance(t), second.SetThread(t, DescendFrom(0, m)));
    longer := LeafAndOut(longer, second, t, m);
  }

  /** Three pools with keys 10, 1 and 2. Thread 0 is interrupted between its test and its exchange by two
      submissions of thread 1, each of which raises the key of the pool it chose. Then the exchange puts
      back entries that have moved, pool 1 is listed twice and pool 2 is lost. */
  lemma PoolIsLost() returns (run: Run)
    ensures run.Valid() && |run.states[0].threads| == 2
    ensures run.states[0].dheap == [0, 1, 2] && run.states[0].keys == [10, 1, 2]
    ensures run.Last().dheap == [1, 0, 1] && run.Last().threads == [Outside, Outside] && Lost(run.Last(), 2)
  {
    var start := State(4, [0, 1, 2], [10, 1, 2], [Outside, Outside]);
    run := Run([start], []);
    run := UpToExchange(run, start, 0);
    var stale := WriteParent(0, 0, 1, 0, 1);
    run := FirstOfOther(run, stale);
    run := SecondOfOther(run, stale);
    var moved := State(4, [2, 0, 1], [10, 1001, 1002], [Outside, Outside]);
    run := Exchange(run, moved, 0, 1, 0, 1);
    assert [2, 0, 1][0 := 1][1 := 0] == [1, 0, 1];
  }

  lemma FirstOfOther(run: Run, stale: Thread) returns (longer: Run)
    requires run.Valid() && run.Last() == State(4, [0, 1, 2], [10, 1, 2], [stale, Outside])
    ensures longer.Valid() && longer.states[0] == run.states[0]
    ensures longer.Last() == State(4, [1, 0, 2], [10, 1001, 2], [stale, Outside])
  {
    var s := run.Last();
    longer := UpToExchange(run, s, 1);
    longer := Exchange(longer, s, 1, 1, 0, 1);
    assert [0, 1, 2][0 := 1][1 := 0] == [1, 0, 2] && [10, 1, 2][1 := 1001] == [10, 1001, 2];
    longer := Go(longer, SetKey(1, 1001), State(4, [1, 0, 2], [10, 1001, 2], [stale, Outside]));
  }

  lemma SecondOfOther(run: Run, stale: Thread) returns (longer: Run)
    requires run.Valid() && run.Last() == State(4, [1, 0, 2], [10, 1001, 2], [stale, Outside])
    ensures longer.Valid() && longer.states[0] == run.states[0]
    ensures longer.Last() == State(4, [2, 0, 1], [10, 1001, 1002], [stale, Outside])
  {
    var s := run.Last();
    longer := UpToExchange(run, s, 1);
    longer := Exchange(longer, s, 1, 2, 1, 2);
    assert [1, 0, 2][0 := 2][2 := 1] == [2, 0, 1] && [10, 1001, 2][2 := 1002] == [10, 1001, 1002];
    longer := Go(longer, SetKey(2, 1002), State(4, [2, 0, 1], [10, 1001, 1002], [stale, Outside]));
  }
}
