/** What an interleaved submission makes of the heap, and which pool it chooses, when nobody interferes with
    it: the same as a call that nothing interrupts. */
module HeapRaceChoice {
  import opened Structures
  import opened HeapOrder
  import opened HeapReference
  import opened HeapRace

  /** The keys in the order of the array. */
  function KeyList(dheap: seq<nat>, keys: seq<Long>): (list: seq<int>)
    requires forall j :: 0 <= j < |dheap| ==> dheap[j] < |keys|
    ensures Lists(dheap, list, keys)
  {
    seq(|dheap|, j requires 0 <= j < |dheap| => keys[dheap[j]])
  }

  /** What becomes of the array when the descent goes on from node `index`, and then from those before `i`. */
  function Outcome(dheap: seq<nat>, keys: seq<Long>, k: nat, i: nat, index: nat): seq<nat>
    requires forall j :: 0 <= j < |dheap| ==> dheap[j] < |keys|
  {
    var sifted := Sift(dheap, KeyList(dheap, keys), k, index);
    Rebuilt(sifted.0, sifted.1, k, i).0
  }

  /** The scan has found the least of the children before number `nth`. */
  predicate Scanned(s: State, list: seq<int>, index: nat, nth: nat, minChild: int, m: nat)
    requires nth > 0
  {
    && Least(list, s.Child(index, 0), nth - 1) == (if minChild == LONG_MAX then 0 else m)
    && (minChild != LONG_MAX ==> m < |list| && list[m] == minChild)
  }

  /** What a thread knows of the children of its node. */
  predicate Scans(s: State, thread: Thread)
    requires Inv(s) && ThreadOk(s, thread)
  {
    var k, list := s.breadth, KeyList(s.dheap, s.keys);
    match thread
    case Scanning(_, index, nth, minChild, m) => Scanned(s, list, index, nth, minChild, m)
    case AtChildKey(_, index, nth, minChild, m, child) =>
      Scanned(s, list, index, nth, minChild, m) && child == s.dheap[s.Child(index, nth)]
    case Smaller(_, index, nth) => Least(list, s.Child(index, 0), nth) == s.Child(index, nth)
    case AtMinKey(_, index, nth, child) =>
      Least(list, s.Child(index, 0), nth) == s.Child(index, nth) && child == s.dheap[s.Child(index, nth)]
    case AtA(_, index, m) => LeastChild(list, k, index) == m
    case AtB(_, index, m, _) => LeastChild(list, k, index) == m
    case AtKeyA(_, index, m, _, _) => LeastChild(list, k, index) == m
    case AtKeyB(_, index, m, _, _, keyA) => LeastChild(list, k, index) == m && keyA == list[index]
    case WriteParent(_, index, m, _, _) => LeastChild(list, k, index) == m && list[index] > list[m]
    case _ => true
  }

  /** A thread is on its way to the array `goal`. */
  predicate Aims(s: State, thread: Thread, goal: seq<nat>)
    requires Inv(s) && ThreadOk(s, thread)
  {
    match thread
    case Outside => true
    case WriteChild(i, index, m, a) => Outcome(s.dheap[m := a], s.keys, s.breadth, i, m) == goal
    case AtRoot => s.dheap == goal
    case Chosen(p) => s.dheap == goal && p == s.dheap[0]
    case _ => Outcome(s.dheap, s.keys, s.breadth, thread.i, thread.index) == goal
  }

  predicate Tracks(s: State, thread: Thread, goal: seq<nat>)
    requires Inv(s) && ThreadOk(s, thread)
  {
    Scans(s, thread) && Aims(s, thread, goal)
  }

  /** At the end of a scan: on to the exchange, or to the next node to start from, or out. */
  lemma TracksScanned(s: State, thread: Thread, goal: seq<nat>)
    requires Inv(s) && ThreadOk(s, thread) && Tracks(s, thread, goal)
    requires thread.Scanning? && thread.nth > s.breadth
    ensures ThreadOk(s, Next(s, thread)) && Tracks(s, Next(s, thread), goal)
  {
    NextOk(s, thread);
  }

  /** What looking at one more child does to the least one. */
  lemma LeastStep(list: seq<int>, first: nat, nth: nat, minChild: int, m: nat)
    requires nth > 0 && Least(list, first, nth - 1) == (if minChild == LONG_MAX then 0 else m)
    requires minChild != LONG_MAX ==> 0 < m < |list| && list[m] == minChild
    ensures var c := first + nth;
            Least(list, first, nth) == if c < |list| && list[c] < minChild then c else if minChild == LONG_MAX then 0 else m
  {
  }

  lemma ScansLook(s: State, thread: Thread)
    requires Inv(s) && ThreadOk(s, thread) && Scans(s, thread) && thread.Scanning? && thread.nth <= s.breadth
    ensures ThreadOk(s, Next(s, thread)) && Scans(s, Next(s, thread))
  {
    ScanOk(s, thread);
    LeastStep(KeyList(s.dheap, s.keys), s.Child(thread.index, 0), thread.nth, thread.minChild, thread.minChildIndex);
  }

  lemma ScansChildKey(s: State, thread: Thread)
    requires Inv(s) && ThreadOk(s, thread) && Scans(s, thread) && thread.AtChildKey?
    ensures InBounds(s, thread) && ThreadOk(s, Next(s, thread)) && Scans(s, Next(s, thread))
  {
    AccessOk(s, thread);
    ScanOk(s, thread);
    ScansCompare(s, thread.index, thread.nth, thread.minChild, thread.minChildIndex);
  }

  lemma ScansCompare(s: State, index: nat, nth: nat, minChild: int, m: nat)
    requires Inv(s) && 1 <= nth && s.Child(index, nth) < s.Size()
    requires Scanned(s, KeyList(s.dheap, s.keys), index, nth, minChild, m) && (minChild != LONG_MAX ==> m > 0)
    ensures var list, c := KeyList(s.dheap, s.keys), s.Child(index, nth);
            if s.keys[s.dheap[c]] < minChild then Least(list, s.Child(index, 0), nth) == c
            else Scanned(s, list, index, nth + 1, minChild, m)
  {
    LeastStep(KeyList(s.dheap, s.keys), s.Child(index, 0), nth, minChild, m);
  }

  lemma ScansMinKey(s: State, thread: Thread)
    requires Inv(s) && ThreadOk(s, thread) && Scans(s, thread) && (thread.Smaller? || thread.AtMinKey?)
    ensures InBounds(s, thread) && ThreadOk(s, Next(s, thread)) && Scans(s, Next(s, thread))
  {
    NextOk(s, thread);
  }

  lemma ScansNext(s: State, thread: Thread)
    requires Inv(s) && ThreadOk(s, thread) && Scans(s, thread)
    requires (thread.Scanning? && thread.nth <= s.breadth) || thread.AtChildKey? || thread.Smaller? || thread.AtMinKey?
    ensures InBounds(s, thread) && ThreadOk(s, Next(s, thread)) && Scans(s, Next(s, thread))
  {
    NextOk(s, thread);
    match thread {
      case Scanning(_, _, _, _, _) => ScansLook(s, thread);
      case AtChildKey(_, _, _, _, _, _) => ScansChildKey(s, thread);
      case _ => ScansMinKey(s, thread);
    }
  }

  lemma TracksScan(s: State, thread: Thread, goal: seq<nat>)
    requires Inv(s) && ThreadOk(s, thread) && Tracks(s, thread, goal)
    requires (thread.Scanning? && thread.nth <= s.breadth) || thread.AtChildKey? || thread.Smaller? || thread.AtMinKey?
    ensures InBounds(s, thread) && ThreadOk(s, Next(s, thread)) && Tracks(s, Next(s, thread), goal)
  {
    ScansNext(s, thread);
  }

  lemma TracksReads(s: State, thread: Thread, goal: seq<nat>)
    requires Inv(s) && ThreadOk(s, thread) && Tracks(s, thread, goal) && Current(s, thread)
    requires thread.AtA? || thread.AtB? || thread.AtKeyA?
    ensures InBounds(s, thread) && ThreadOk(s, Next(s, thread)) && Tracks(s, Next(s, thread), goal)
  {
    NextOk(s, thread);
  }

  /** Without an exchange the descent goes on. */
  lemma TracksCompare(s: State, thread: Thread, goal: seq<nat>)
    requires Inv(s) && ThreadOk(s, thread) && Tracks(s, thread, goal) && Current(s, thread) && thread.AtKeyB?
    ensures InBounds(s, thread) && ThreadOk(s, Next(s, thread)) && Tracks(s, Next(s, thread), goal)
  {
    NextOk(s, thread);
    var list := KeyList(s.dheap, s.keys);
    if list[thread.index] <= list[thread.minChildIndex] {
      SiftRound(s.dheap, list, s.dheap, s.breadth, thread.index, thread.minChildIndex);
    }
  }

  lemma HeapStaysInv(s: State, thread: Thread)
    requires Inv(s) && ThreadOk(s, thread)
    ensures InBounds(s, thread) && Inv(s.(dheap := NextHeap(s, thread)))
    ensures ThreadOk(s.(dheap := NextHeap(s, thread)), Next(s, thread))
  {
    NextOk(s, thread);
    var s' := s.(dheap := NextHeap(s, thread));
    forall t | 0 <= t < |s.threads|
      ensures ThreadOk(s', s.threads[t])
    {
      assert ThreadOk(s, s.threads[t]);
    }
  }

  lemma SwapKeyList(dheap: seq<nat>, keys: seq<Long>, i: nat, j: nat)
    requires i < |dheap| && j < |dheap| && forall x :: 0 <= x < |dheap| ==> dheap[x] < |keys|
    ensures KeyList(Swap(dheap, i, j), keys) == Swap(KeyList(dheap, keys), i, j)
  {
  }

  /** The exchange, once both its writes are done. */
  lemma TracksExchange(s: State, thread: Thread, goal: seq<nat>)
    requires Inv(s) && ThreadOk(s, thread) && Tracks(s, thread, goal) && Current(s, thread) && thread.WriteParent?
    ensures InBounds(s, thread)
    ensures var s' := s.(dheap := NextHeap(s, thread));
            Inv(s') && ThreadOk(s', Next(s, thread)) && Tracks(s', Next(s, thread), goal)
  {
    HeapStaysInv(s, thread);
    var list, index, m := KeyList(s.dheap, s.keys), thread.index, thread.minChildIndex;
    SwapKeyList(s.dheap, s.keys, index, m);
    SiftRound(s.dheap, list, Swap(s.dheap, index, m), s.breadth, index, m);
    assert s.dheap[index := thread.b][m := thread.a] == Swap(s.dheap, index, m);
  }

  lemma TracksWrite(s: State, thread: Thread, goal: seq<nat>)
    requires Inv(s) && ThreadOk(s, thread) && Tracks(s, thread, goal) && thread.WriteChild?
    ensures InBounds(s, thread)
    ensures var s' := s.(dheap := NextHeap(s, thread));
            Inv(s') && ThreadOk(s', Next(s, thread)) && Tracks(s', Next(s, thread), goal)
  {
    HeapStaysInv(s, thread);
  }

  /** Every step of a thread that nobody interferes with. */
  lemma TracksNext(s: State, thread: Thread, goal: seq<nat>)
    requires Inv(s) && ThreadOk(s, thread) && Tracks(s, thread, goal) && Current(s, thread) && !thread.Chosen?
    ensures InBounds(s, thread)
    ensures var s' := s.(dheap := NextHeap(s, thread));
            Inv(s') && ThreadOk(s', Next(s, thread)) && Tracks(s', Next(s, thread), goal)
  {
    HeapStaysInv(s, thread);
    match thread {
      case Scanning(_, _, nth, _, _) =>
        if nth > s.breadth { TracksScanned(s, thread, goal); } else { TracksScan(s, thread, goal); }
      case AtChildKey(_, _, _, _, _, _) => TracksScan(s, thread, goal);
      case Smaller(_, _, _) => TracksScan(s, thread, goal);
      case AtMinKey(_, _, _, _) => TracksScan(s, thread, goal);
      case AtA(_, _, _) => TracksReads(s, thread, goal);
      case AtB(_, _, _, _) => TracksReads(s, thread, goal);
      case AtKeyA(_, _, _, _, _) => TracksReads(s, thread, goal);
      case AtKeyB(_, _, _, _, _, _) => TracksCompare(s, thread, goal);
      case WriteParent(_, _, _, _, _) => TracksExchange(s, thread, goal);
      case WriteChild(_, _, _, _) => TracksWrite(s, thread, goal);
      case AtRoot =>
      case Outside =>
    }
  }

  lemma CurrentNext(s: State, thread: Thread)
    requires Inv(s) && ThreadOk(s, thread) && Current(s, thread)
    ensures InBounds(s, thread) && Current(s.(dheap := NextHeap(s, thread)), Next(s, thread))
  {
    NextOk(s, thread);
  }

  /** From step `i` on, in which thread `t` begins a submission, to state `j`: no other thread rebuilds the
      heap, no submission begins and no key is written. */
  predicate Undisturbed(run: Run, i: nat, j: nat, t: nat) {
    && i < j < |run.states| && |run.states| == |run.steps| + 1 && run.steps[i] == Enter(t)
    && (forall u :: 0 <= u < |run.states[i].threads| && u != t ==> !run.states[i].threads[u].Rebuilding())
    && (forall k :: i < k < j ==> !run.steps[k].SetKey? && !run.steps[k].Enter?)
  }

  /** The array and the keys alone. */
  function Bare(s: State): State {
    s.(threads := [])
  }

  lemma BareOk(s: State, thread: Thread)
    ensures ThreadOk(Bare(s), thread) == ThreadOk(s, thread) && Current(Bare(s), thread) == Current(s, thread)
    ensures Inv(s) ==> Inv(Bare(s))
  {
  }

  lemma BareNext(s: State, thread: Thread)
    requires InBounds(s, thread)
    ensures InBounds(Bare(s), thread)
    ensures Next(Bare(s), thread) == Next(s, thread) && NextHeap(Bare(s), thread) == NextHeap(s, thread)
  {
  }

  /** What holds all along. */
  predicate Along(s: State, t: nat, keys: seq<Long>, goal: seq<nat>) {
    && Inv(s) && t < |s.threads| && s.keys == keys
    && (forall u :: 0 <= u < |s.threads| && u != t ==> !s.threads[u].Rebuilding())
    && Current(s, s.threads[t])
    && Inv(Bare(s)) && ThreadOk(Bare(s), s.threads[t]) && Tracks(Bare(s), s.threads[t], goal)
  }

  /** The array that a call without interruption would leave. */
  function Goal(s: State): seq<nat>
    requires Inv(s)
  {
    Rebuilt(s.dheap, KeyList(s.dheap, s.keys), s.breadth, (s.Size() - 1) / s.breadth + 1).0
  }

  lemma EnterAlong(s: State, t: nat)
    requires Inv(s) && Enabled(s, Enter(t))
    requires forall u :: 0 <= u < |s.threads| && u != t ==> !s.threads[u].Rebuilding()
    ensures Along(Apply(s, Enter(t)), t, s.keys, Goal(s))
  {
    StepKeeps(s, Enter(t));
    BareOk(Apply(s, Enter(t)), Apply(s, Enter(t)).threads[t]);
  }

  lemma OwnAlong(s: State, t: nat, keys: seq<Long>, goal: seq<nat>)
    requires Along(s, t, keys, goal) && !s.threads[t].Outside? && !s.threads[t].Chosen?
    ensures InBounds(s, s.threads[t]) && Along(Apply(s, Advance(t)), t, keys, goal)
  {
    var thread := s.threads[t];
    assert ThreadOk(s, thread);
    BareOk(s, thread);
    TracksNext(Bare(s), thread, goal);
    CurrentNext(s, thread);
    BareNext(s, thread);
    StepKeeps(s, Advance(t));
    var s' := Apply(s, Advance(t));
    assert Bare(s') == Bare(s).(dheap := NextHeap(Bare(s), thread));
    BareOk(s', Next(s, thread));
    BareOk(s.(dheap := s'.dheap), Next(s, thread));
  }

  lemma OtherAlong(s: State, t: nat, u: nat, keys: seq<Long>, goal: seq<nat>)
    requires Along(s, t, keys, goal) && u != t && Enabled(s, Advance(u)) && InBounds(s, s.threads[u])
    ensures Along(Apply(s, Advance(u)), t, keys, goal)
  {
    StepKeeps(s, Advance(u));
    var s' := Apply(s, Advance(u));
    assert !s.threads[u].Rebuilding() && Bare(s') == Bare(s);
    BareOk(s, s.threads[t]);
    BareOk(s', s.threads[t]);
  }

  lemma {:induction false} AlongRun(run: Run, i: nat, j: nat, t: nat)
    requires run.Valid() && Undisturbed(run, i, j, t)
    ensures Inv(run.states[i]) && t < |run.states[j].threads|
    ensures run.states[j].threads[t].Outside? || Along(run.states[j], t, run.states[i].keys, Goal(run.states[i]))
    decreases j
  {
    RunKeeps(run, i);
    RunKeeps(run, j - 1);
    assert run.StepAt(j - 1);
    var s, step := run.states[j - 1], run.steps[j - 1];
    if j == i + 1 {
      EnterAlong(s, t);
    } else {
      AlongRun(run, i, j - 1, t);
      SameSize(s, step);
      if step == Advance(t) {
        if !s.threads[t].Chosen? {
          OwnAlong(s, t, run.states[i].keys, Goal(run.states[i]));
        }
      } else if !s.threads[t].Outside? {
        OtherAlong(s, t, step.t, run.states[i].keys, Goal(run.states[i]));
      }
    }
  }

  /** The result of a rebuild, as the reference function gives it. */
  lemma GoalIsHeap(s: State)
    requires Inv(s)
    ensures |Goal(s)| == s.Size() && multiset(Goal(s)) == multiset(s.dheap)
    ensures forall j :: 0 <= j < s.Size() ==> Goal(s)[j] < |s.keys|
    ensures IsHeap(KeyList(Goal(s), s.keys), s.breadth)
    ensures IsHeap(KeyList(s.dheap, s.keys), s.breadth) ==> Goal(s) == s.dheap
  {
    var k, list, d := s.breadth, KeyList(s.dheap, s.keys), (s.Size() - 1) / s.breadth;
    StartInside(s.Size(), k);
    NoChildrenBeyond(list, k, d);
    RebuiltIsHeap(s.dheap, list, k, d + 1);
    RebuiltLists(s.dheap, list, s.keys, k, d + 1);
    assert KeyList(Goal(s), s.keys) == Rebuilt(s.dheap, list, k, d + 1).1;
    if IsHeap(list, k) {
      RebuiltIdle(s.dheap, list, k, d + 1);
    }
  }

  /** An undisturbed submission leaves the array that the reference function gives, whichever order the
      array was in, and chooses its first pool; an array that is a heap stays as it is. */
  lemma UndisturbedRebuilds(run: Run, i: nat, j: nat, t: nat)
    requires run.Valid() && Undisturbed(run, i, j, t)
    ensures Inv(run.states[i]) && t < |run.states[j].threads| && run.states[j].Size() > 0
    ensures var before, s := run.states[i], run.states[j];
            && (s.threads[t].AtRoot? || s.threads[t].Chosen? ==>
                  s.dheap == Rebuilt(before.dheap, KeyList(before.dheap, before.keys), before.breadth,
                                     (before.Size() - 1) / before.breadth + 1).0)
            && (s.threads[t].Chosen? ==> s.threads[t].pool == s.dheap[0])
  {
    AlongRun(run, i, j, t);
    RunKeeps(run, j);
  }

  lemma ListedSomewhere(dheap: seq<nat>, q: nat)
    requires multiset(dheap) == Everyone(|dheap|) && q < |dheap|
    ensures exists j :: 0 <= j < |dheap| && dheap[j] == q
  {
    var all := seq(|dheap|, i => i);
    assert all[q] == q;
    assert q in multiset(all);
    assert q in multiset(dheap);
  }

  /** So the keys in the order of the array are a heap at the choice, and, if every pool was listed, the pool
      chosen has the least key of all. */
  lemma LeastIsChosen(run: Run, i: nat, j: nat, t: nat)
    requires run.Valid() && Undisturbed(run, i, j, t)
    requires multiset(run.states[i].dheap) == Everyone(run.states[i].Size())
    ensures var s := run.states[j];
            && t < |s.threads| && |s.keys| == s.Size() && s.breadth > 0
            && (s.threads[t].AtRoot? || s.threads[t].Chosen? ==>
                  forall c :: 0 < c < s.Size() ==>
                    s.dheap[c] < s.Size() && s.dheap[Parent(c, s.breadth)] < s.Size()
                    && s.keys[s.dheap[Parent(c, s.breadth)]] <= s.keys[s.dheap[c]])
            && (s.threads[t].Chosen? ==>
                  && s.threads[t].pool < s.Size()
                  && forall q :: 0 <= q < s.Size() ==> s.keys[s.threads[t].pool] <= s.keys[q])
  {
    AlongRun(run, i, j, t);
    RunKeeps(run, j);
    RunKeeps(run, i);
    var s := run.states[j];
    if s.threads[t].AtRoot? || s.threads[t].Chosen? {
      GoalIsHeap(run.states[i]);
      var k, list := s.breadth, KeyList(s.dheap, s.keys);
      forall c | 0 < c < s.Size()
        ensures s.keys[s.dheap[Parent(c, k)]] <= s.keys[s.dheap[c]]
      {
        assert NoLarger(list, Parent(c, k), c);
      }
      forall q | 0 <= q < s.Size()
        ensures list[0] <= s.keys[q]
      {
        ListedSomewhere(s.dheap, q);
        var x :| 0 <= x < s.Size() && s.dheap[x] == q;
        RootIsMin(list, k, x);
      }
    }
  }
}
