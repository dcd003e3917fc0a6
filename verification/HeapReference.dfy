/** What rebuilding the heap leads to, as a function of the listed elements and their keys. */
module HeapReference {
  import opened Structures
  import opened Arithmetic
  import opened HeapOrder

  /** Which of the `nth` indices behind `first` has the least key below the top of the range of keys; zero
      if none has. */
  function Least(list: seq<int>, first: nat, nth: nat): (m: nat)
    ensures m != 0 ==> first < m <= first + nth && m < |list| && list[m] < LONG_MAX
  {
    if nth == 0 then 0
    else
      var m, c := Least(list, first, nth - 1), first + nth;
      if c < |list| && list[c] < (if m == 0 then LONG_MAX else list[m]) then c else m
  }

  /** It is the first of those with the least key. */
  lemma {:induction false} LeastIsFirst(list: seq<int>, first: nat, nth: nat)
    ensures var m := Least(list, first, nth);
            forall c :: first < c <= first + nth && c < |list| ==>
              if m == 0 then list[c] >= LONG_MAX else if c < m then list[m] < list[c] else list[m] <= list[c]
  {
    if nth > 0 {
      LeastIsFirst(list, first, nth - 1);
    }
  }

  lemma Behind(k: nat, index: nat)
    requires k > 0
    ensures k * index >= index
  {
    if index > 0 {
      MulSign(k, index);
    }
  }

  /** The least child of node `index`, or zero. */
  function LeastChild(list: seq<int>, k: nat, index: nat): (m: nat)
    ensures m != 0 ==> index < m < |list|
  {
    if k > 0 then
      Behind(k, index);
      Least(list, k * index, k)
    else 0
  }

  /** The elements and keys after a descent from node `index`. */
  function Sift<T>(elements: seq<T>, list: seq<int>, k: nat, index: nat): (result: (seq<T>, seq<int>))
    requires |elements| == |list|
    ensures |result.0| == |result.1| == |list|
    decreases |list| - index
  {
    var m := LeastChild(list, k, index);
    if m == 0 then (elements, list)
    else if list[index] > list[m] then Sift(Swap(elements, index, m), Swap(list, index, m), k, m)
    else Sift(elements, list, k, m)
  }

  lemma SiftEnds<T>(elements: seq<T>, list: seq<int>, k: nat, index: nat)
    requires |elements| == |list| && LeastChild(list, k, index) == 0
    ensures Sift(elements, list, k, index) == (elements, list)
  {
  }

  /** One round of the descent. */
  lemma SiftRound<T>(elements: seq<T>, list: seq<int>, after: seq<T>, k: nat, index: nat, m: nat)
    requires |elements| == |list| && m == LeastChild(list, k, index) && m != 0
    requires after == if list[index] > list[m] then Swap(elements, index, m) else elements
    ensures Sift(after, Descend(list, index, m), k, m) == Sift(elements, list, k, index)
  {
  }

  /** The elements and keys after descents from the nodes `i - 1`, ..., 0. */
  function Rebuilt<T>(elements: seq<T>, list: seq<int>, k: nat, i: nat): (result: (seq<T>, seq<int>))
    requires |elements| == |list|
    ensures |result.0| == |result.1| == |list|
    decreases i
  {
    if i == 0 then (elements, list)
    else
      var sifted := Sift(elements, list, k, i - 1);
      Rebuilt(sifted.0, sifted.1, k, i - 1)
  }

  /** A least index is a least child. */
  lemma LeastIsMinChild(keys: seq<int>, k: nat, index: nat)
    requires k > 0 && forall j :: 0 <= j < |keys| ==> keys[j] <= LONG_MAX
    ensures var m := LeastChild(keys, k, index);
            if m == 0 then forall c :: 0 < c < |keys| && Parent(c, k) == index ==> keys[c] == LONG_MAX
            else IsMinChild(keys, k, index, m)
  {
    LeastIsFirst(keys, k * index, k);
    ChildrenAreBlock(|keys|, k, index);
  }

  predicate AtMost(list: seq<int>, max: int) {
    forall j :: 0 <= j < |list| ==> list[j] <= max
  }

  /** A descent fills the hole it starts at. */
  lemma {:induction false} SiftIsHeap<T>(elements: seq<T>, list: seq<int>, k: nat, lo: nat, index: nat)
    requires |elements| == |list| && k > 0 && lo <= index < |list|
    requires HeapExcept(list, k, lo, index) && AtMost(list, LONG_MAX)
    ensures HeapFrom(Sift(elements, list, k, index).1, k, lo) && AtMost(Sift(elements, list, k, index).1, LONG_MAX)
    decreases |list| - index
  {
    var m := LeastChild(list, k, index);
    LeastIsMinChild(list, k, index);
    if m == 0 {
      DescendDone(list, k, lo, index, LONG_MAX);
    } else {
      DescendKeeps(list, Descend(list, index, m), k, lo, index, m);
      SiftIsHeap(if list[index] > list[m] then Swap(elements, index, m) else elements, Descend(list, index, m), k, lo, m);
    }
  }

  /** All descents together make a heap of any order. */
  lemma {:induction false} RebuiltIsHeap<T>(elements: seq<T>, list: seq<int>, k: nat, i: nat)
    requires |elements| == |list| && k > 0 && i <= |list| && HeapFrom(list, k, i) && AtMost(list, LONG_MAX)
    ensures IsHeap(Rebuilt(elements, list, k, i).1, k)
    decreases i
  {
    if i > 0 {
      var sifted := Sift(elements, list, k, i - 1);
      StartDescend(list, k, i - 1);
      SiftIsHeap(elements, list, k, i - 1, i - 1);
      RebuiltIsHeap(sifted.0, sifted.1, k, i - 1);
    }
  }

  /** A descent in a heap changes nothing. */
  lemma {:induction false} SiftIdle<T>(elements: seq<T>, list: seq<int>, k: nat, lo: nat, index: nat)
    requires |elements| == |list| && k > 0 && lo <= index < |list| && HeapFrom(list, k, lo) && AtMost(list, LONG_MAX)
    ensures Sift(elements, list, k, index) == (elements, list)
    decreases |list| - index
  {
    var m := LeastChild(list, k, index);
    LeastIsMinChild(list, k, index);
    if m != 0 {
      DescendIdle(list, k, lo, index, m);
      SiftIdle(elements, list, k, lo, m);
    }
  }

  lemma {:induction false} RebuiltIdle<T>(elements: seq<T>, list: seq<int>, k: nat, i: nat)
    requires |elements| == |list| && k > 0 && i <= |list| && IsHeap(list, k) && AtMost(list, LONG_MAX)
    ensures Rebuilt(elements, list, k, i) == (elements, list)
    decreases i
  {
    if i > 0 {
      SiftIdle(elements, list, k, 0, i - 1);
      RebuiltIdle(elements, list, k, i - 1);
    }
  }

  /** Nothing is lost or gained, and every element takes its key along. */
  predicate Lists(elements: seq<nat>, list: seq<int>, keys: seq<int>) {
    |list| == |elements| && forall j :: 0 <= j < |list| ==> elements[j] < |keys| && list[j] == keys[elements[j]]
  }

  lemma {:induction false} SiftLists(elements: seq<nat>, list: seq<int>, keys: seq<int>, k: nat, index: nat)
    requires Lists(elements, list, keys) && index < |list|
    ensures var r := Sift(elements, list, k, index);
            Lists(r.0, r.1, keys) && multiset(r.0) == multiset(elements)
    decreases |list| - index
  {
    var m := LeastChild(list, k, index);
    if m != 0 {
      if list[index] > list[m] {
        SwapIsPermutation(elements, index, m);
        SiftLists(Swap(elements, index, m), Swap(list, index, m), keys, k, m);
      } else {
        SiftLists(elements, list, keys, k, m);
      }
    }
  }

  lemma {:induction false} RebuiltLists(elements: seq<nat>, list: seq<int>, keys: seq<int>, k: nat, i: nat)
    requires Lists(elements, list, keys) && i <= |list|
    ensures var r := Rebuilt(elements, list, k, i);
            Lists(r.0, r.1, keys) && multiset(r.0) == multiset(elements)
    decreases i
  {
    if i > 0 {
      var sifted := Sift(elements, list, k, i - 1);
      SiftLists(elements, list, keys, k, i - 1);
      RebuiltLists(sifted.0, sifted.1, keys, k, i - 1);
    }
  }
}
