/** The loop that waits for the pools one after another, run on what it sees of them. Whether emptiness
    is stable while it runs is a property of the protocol, proved in module ProtocolResults. */
module WaitLoop {
  import opened Structures

  /** One look at a pool: its sleep flag and the size of its queue. */
  datatype Sample = Sample(sleeping: bool, size: nat)

  predicate Passes(s: Sample) {
    s.sleeping && s.size <= 0
  }

  datatype Outcome = Returned(status: Status) | StillWaiting

  /** `history[t][j]` is pool `j` at the time of the loop's test number `t`. */
  ghost predicate History(history: seq<seq<Sample>>, num: nat) {
    forall t :: 0 <= t < |history| ==> |history[t]| == num
  }

  /** A queue seen empty is seen empty from then on. */
  ghost predicate EmptyStaysEmpty(history: seq<seq<Sample>>, num: nat)
    requires History(history, num)
  {
    forall t, u, j :: 0 <= t <= u < |history| && 0 <= j < num && history[t][j].size == 0 ==> history[u][j].size == 0
  }

  /** The times at which pools 0, 1, 2, ... can be passed, one after another. */
  ghost predicate Schedule(history: seq<seq<Sample>>, num: nat, times: seq<nat>)
    requires History(history, num)
  {
    && |times| <= num
    && (forall j :: 0 <= j < |times| ==>
          times[j] < |history| && history[times[j]][j].sleeping && history[times[j]][j].size == 0)
    && (forall i, j :: 0 <= i < j < |times| ==> times[i] < times[j])
  }

  /** In every schedule the pools before `i` take at least until time `t`. */
  ghost predicate NotBefore(history: seq<seq<Sample>>, num: nat, i: nat, t: nat)
    requires History(history, num)
  {
    forall times: seq<nat> :: Schedule(history, num, times) && |times| > i ==> t <= times[i]
  }

  lemma NotBeforeStep(history: seq<seq<Sample>>, num: nat, i: nat, t: nat)
    requires History(history, num) && i < num && t < |history| && NotBefore(history, num, i, t)
    ensures NotBefore(history, num, if Passes(history[t][i]) then i + 1 else i, t + 1)
  {
    var next := if Passes(history[t][i]) then i + 1 else i;
    forall times: seq<nat> | Schedule(history, num, times) && |times| > next
      ensures t + 1 <= times[next]
    {
      assert t <= times[i];
    }
  }

  predicate AllEmpty(samples: seq<Sample>) {
    forall j :: 0 <= j < |samples| ==> samples[j].size == 0
  }

  /** Pools seen empty one after another are all empty at the time the last one is. */
  lemma EmptyTogether(history: seq<seq<Sample>>, num: nat, times: seq<nat>)
    requires History(history, num) && EmptyStaysEmpty(history, num)
    requires Schedule(history, num, times) && |times| == num > 0
    ensures AllEmpty(history[times[num - 1]])
  {
    var last := times[num - 1];
    forall j | 0 <= j < num
      ensures history[last][j].size == 0
    {
      assert history[times[j]][j].size == 0;
      assert j < num - 1 ==> times[j] < times[num - 1];
    }
  }

  /** The loop, cut off when the history ends. It passes every pool in turn, each as early as can be;
      taking `i` back by one after an unsuccessful test neither skips nor repeats a pool. */
  method SchWaitTaskWait(running: bool, num: nat, history: seq<seq<Sample>>)
    returns (outcome: Outcome, ghost times: seq<nat>)
    requires History(history, num)
    ensures outcome == Returned(InvalidState) <==> !running
    ensures running && outcome.Returned? ==> outcome.status == Ok
    ensures Schedule(history, num, times)
    ensures outcome == Returned(Ok) ==> |times| == num
    // Every pool was asleep, and its queue empty, at the time it was passed.
    ensures forall j :: 0 <= j < |times| ==>
              times[j] < |history| && history[times[j]][j].sleeping && history[times[j]][j].size == 0
    ensures running && outcome == StillWaiting ==>
              forall other: seq<nat> :: Schedule(history, num, other) ==> |other| < num
    ensures outcome == Returned(Ok) && num > 0 && EmptyStaysEmpty(history, num) ==> AllEmpty(history[times[num - 1]])
  {
    times := [];
    if !running {
      return Returned(InvalidState), times;
    }
    var i: int := 0;
    var t := 0;
    while i < num
      invariant 0 <= i <= num && 0 <= t <= |history|
      invariant |times| == i && Schedule(history, num, times)
      invariant forall j :: 0 <= j < i ==> times[j] < t
      invariant NotBefore(history, num, i, t)
      decreases |history| - t
    {
      if t == |history| {
        return StillWaiting, times;
      }
      NotBeforeStep(history, num, i, t);
      if Passes(history[t][i]) {
        times := times + [t];
      } else {
        i := i - 1;
      }
      t := t + 1;
      i := i + 1;
    }
    outcome := Returned(Ok);
    if num > 0 && EmptyStaysEmpty(history, num) {
      EmptyTogether(history, num, times);
    }
  }
}
