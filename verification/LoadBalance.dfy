/** What the choice of a pool with the least key means for the loads, over whole runs of submissions
    to no particular pool while no worker takes a step. */
module LoadBalance {
  const INCREMENT := 1000

  /** The number of packages in a pool's queue and its key. */
  datatype Load = Load(size: nat, priority: int)

  ghost predicate IsLeast(loads: seq<Load>, p: nat) {
    p < |loads| && forall j :: 0 <= j < |loads| ==> loads[p].priority <= loads[j].priority
  }

  function Bump(load: Load): Load {
    Load(load.size + 1, load.priority + INCREMENT)
  }

  /** A submission that pool `p` is chosen for. */
  ghost predicate SubmitTo(before: seq<Load>, after: seq<Load>, reserved: nat, accepted: bool, p: nat) {
    && IsLeast(before, p)
    && accepted == (before[p].size < reserved)
    && after == if accepted then before[p := Bump(before[p])] else before
  }

  /** One submission that leaves the choice of the pool to the scheduler. Which of several pools with
      the least key it goes to is left open. */
  ghost predicate NullSubmit(before: seq<Load>, after: seq<Load>, reserved: nat, accepted: bool) {
    exists p: nat :: SubmitTo(before, after, reserved, accepted, p)
  }

  /** The loads around each of a sequence of submissions. */
  ghost predicate Burst(run: seq<seq<Load>>, accepted: seq<bool>, reserved: nat) {
    && |run| == |accepted| + 1
    && forall i :: 0 <= i < |accepted| ==> NullSubmit(run[i], run[i + 1], reserved, accepted[i])
  }

  /** Empty queues and equal keys. */
  predicate Fresh(loads: seq<Load>, base: int) {
    |loads| > 0 && forall j :: 0 <= j < |loads| ==> loads[j] == Load(0, base)
  }

  /** Keys that count the packages, and queues that differ by at most one. */
  predicate Balanced(loads: seq<Load>, base: int, reserved: nat) {
    && |loads| > 0
    && (forall j :: 0 <= j < |loads| ==> loads[j].priority == base + INCREMENT * loads[j].size)
    && (forall j :: 0 <= j < |loads| ==> loads[j].size <= reserved)
    && (forall i, j :: 0 <= i < |loads| && 0 <= j < |loads| ==> loads[i].size <= loads[j].size + 1)
  }

  function Total(loads: seq<Load>): nat {
    if loads == [] then 0 else Total(loads[..|loads| - 1]) + loads[|loads| - 1].size
  }

  lemma {:induction false} TotalBump(loads: seq<Load>, p: nat)
    requires p < |loads|
    ensures Total(loads[p := Bump(loads[p])]) == Total(loads) + 1
  {
    var n, after := |loads| - 1, loads[p := Bump(loads[p])];
    if p < n {
      TotalBump(loads[..n], p);
      assert after[..n] == loads[..n][p := Bump(loads[p])];
    } else {
      assert after[..n] == loads[..n];
    }
  }

  /** Queues within the capacity hold as much as possible exactly when all of them are full. */
  lemma {:induction false} TotalIsCapacity(loads: seq<Load>, reserved: nat)
    requires forall j :: 0 <= j < |loads| ==> loads[j].size <= reserved
    ensures Total(loads) <= |loads| * reserved
    ensures Total(loads) == |loads| * reserved <==> forall j :: 0 <= j < |loads| ==> loads[j].size == reserved
  {
    if loads != [] {
      var n := |loads| - 1;
      TotalIsCapacity(loads[..n], reserved);
      assert |loads| * reserved == n * reserved + reserved;
      if forall j :: 0 <= j < n ==> loads[..n][j].size == reserved {
        assert forall j :: 0 <= j < n ==> loads[j].size == loads[..n][j].size;
      } else {
        var j :| 0 <= j < n && loads[..n][j].size != reserved;
        assert loads[j].size != reserved;
      }
    }
  }

  /** A submission keeps the balance, counts, and is turned away only when every queue is full. */
  lemma BalancedStep(before: seq<Load>, after: seq<Load>, base: int, reserved: nat, accepted: bool)
    requires Balanced(before, base, reserved) && NullSubmit(before, after, reserved, accepted)
    ensures Balanced(after, base, reserved) && |after| == |before|
    ensures Total(after) == Total(before) + if accepted then 1 else 0
    ensures accepted <==> Total(before) < |before| * reserved
  {
    var p: nat :| SubmitTo(before, after, reserved, accepted, p);
    assert forall j :: 0 <= j < |before| ==> before[p].priority <= before[j].priority;
    assert forall j :: 0 <= j < |before| ==> before[p].size <= before[j].size;
    TotalIsCapacity(before, reserved);
    if accepted {
      TotalBump(before, p);
    } else {
      assert forall j :: 0 <= j < |before| ==> before[j].size == reserved;
    }
  }

  function Min(a: int, b: int): int {
    if a <= b then a else b
  }

  /** From empty queues with equal keys the queues always differ by at most one, and the submissions
      that are accepted are the first `n * reserved` ones. */
  lemma {:induction false} BalancedBurst(run: seq<seq<Load>>, accepted: seq<bool>, reserved: nat, base: int, m: nat)
    requires Burst(run, accepted, reserved) && Fresh(run[0], base) && m <= |accepted|
    ensures |run[m]| == |run[0]| && Balanced(run[m], base, reserved)
    ensures Total(run[m]) == Min(m, |run[0]| * reserved)
    ensures forall i :: 0 <= i < m ==> (accepted[i] <==> i < |run[0]| * reserved)
    decreases m
  {
    if m == 0 {
      FreshIsBalanced(run[0], base, reserved);
    } else {
      BalancedBurst(run, accepted, reserved, base, m - 1);
      assert NullSubmit(run[m - 1], run[m - 1 + 1], reserved, accepted[m - 1]);
      BalancedStep(run[m - 1], run[m], base, reserved, accepted[m - 1]);
    }
  }

  lemma FreshIsBalanced(loads: seq<Load>, base: int, reserved: nat)
    requires Fresh(loads, base)
    ensures Balanced(loads, base, reserved) && Total(loads) == 0 && 0 <= |loads| * reserved
  {
    TotalEmpty(loads, base);
    TotalIsCapacity(loads, reserved);
  }

  lemma {:induction false} TotalEmpty(loads: seq<Load>, base: int)
    requires forall j :: 0 <= j < |loads| ==> loads[j] == Load(0, base)
    ensures Total(loads) == 0
  {
    if loads != [] {
      TotalEmpty(loads[..|loads| - 1], base);
    }
  }

  function MaxPriority(loads: seq<Load>): (max: int)
    requires loads != []
    ensures forall j :: 0 <= j < |loads| ==> loads[j].priority <= max
    ensures exists j :: 0 <= j < |loads| && loads[j].priority == max
  {
    var last := loads[|loads| - 1].priority;
    if |loads| == 1 then last else
      var rest := loads[..|loads| - 1];
      var max := MaxPriority(rest);
      assert forall j :: 0 <= j < |rest| ==> rest[j] == loads[j];
      if max < last then last else max
  }

  function MinPriority(loads: seq<Load>): (min: int)
    requires loads != []
    ensures forall j :: 0 <= j < |loads| ==> min <= loads[j].priority
    ensures exists j :: 0 <= j < |loads| && loads[j].priority == min
  {
    var last := loads[|loads| - 1].priority;
    if |loads| == 1 then last else
      var rest := loads[..|loads| - 1];
      var min := MinPriority(rest);
      assert forall j :: 0 <= j < |rest| ==> rest[j] == loads[j];
      if last < min then last else min
  }

  function Spread(loads: seq<Load>): int
    requires loads != []
  {
    MaxPriority(loads) - MinPriority(loads)
  }

  lemma SpreadStep(before: seq<Load>, after: seq<Load>, reserved: nat, accepted: bool)
    requires NullSubmit(before, after, reserved, accepted)
    ensures before != [] && |after| == |before|
    ensures Spread(after) <= if Spread(before) < 1000 then 1000 else Spread(before)
    ensures MinPriority(before) <= MinPriority(after)
  {
    var p: nat :| SubmitTo(before, after, reserved, accepted, p);
    var hi :| 0 <= hi < |after| && after[hi].priority == MaxPriority(after);
    var lo :| 0 <= lo < |after| && after[lo].priority == MinPriority(after);
    assert before[p].priority <= before[lo].priority <= after[lo].priority;
    assert before[hi].priority <= MaxPriority(before);
    var least :| 0 <= least < |before| && before[least].priority == MinPriority(before);
    assert before[p].priority <= before[least].priority;
  }

  /** Whatever the keys are at first, submissions never drive them further apart than one increment,
      if they were not further apart already. */
  lemma {:induction false} SpreadBounded(run: seq<seq<Load>>, accepted: seq<bool>, reserved: nat, m: nat)
    requires Burst(run, accepted, reserved) && run[0] != [] && m <= |accepted|
    ensures |run[m]| == |run[0]|
    ensures Spread(run[m]) <= if Spread(run[0]) < 1000 then 1000 else Spread(run[0])
    decreases m
  {
    if m > 0 {
      SpreadBounded(run, accepted, reserved, m - 1);
      assert NullSubmit(run[m - 1], run[m - 1 + 1], reserved, accepted[m - 1]);
      SpreadStep(run[m - 1], run[m], reserved, accepted[m - 1]);
    }
  }
}
