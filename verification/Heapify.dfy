/** The array of pools is rebuilt into a heap of breadth `k`, in place. Worker threads write the keys
    while this runs, so every read of a key can be made to return an arbitrary value. */
module Heapify {
  import opened Structures
  import opened HeapOrder
  import opened HeapReference
  import opened TaskPools
  import opened Arithmetic

  datatype Option<T> = None | Some(value: T)

  const SCH_HEAP_BREATH := 4

  /** The keys of the pools, in the order of the array. */
  ghost function Keys(arr: array<TaskPool>): (keys: seq<int>)
    reads arr, arr[..]
    ensures |keys| == arr.Length
    ensures forall i :: 0 <= i < arr.Length ==> keys[i] == arr[i].dheapPriority <= LONG_MAX
  {
    seq(arr.Length, i requires 0 <= i < arr.Length reads arr, arr[..] => arr[i].dheapPriority)
  }

  /** A read of a pool's key; `racing` says that another thread may be writing it. */
  method ReadPriority(pool: TaskPool, racing: bool) returns (v: Long)
    ensures !racing ==> v == pool.dheapPriority
  {
    if racing {
      v := *;
    } else {
      v := pool.dheapPriority;
    }
  }

  /** The indices of the children of `index`, or -1 for those there are not. Entry 0 is not used. */
  method FillChildren(len: nat, index: nat, k: nat) returns (child: array<int>)
    ensures fresh(child) && child.Length == k + 1
    ensures forall j :: 1 <= j <= k ==> child[j] == if k * index + j < len then k * index + j else -1
  {
    var first := k * index;
    child := new int[k + 1];
    for i := 1 to k + 1
      invariant forall j :: 1 <= j < i ==> child[j] == if first + j < len then first + j else -1
    {
      child[i] := if first + i < len then first + i else -1;
    }
  }

  /** The scan over the children of a node for the first with the least key below `LONG_MAX`. If there is
      none, the index means nothing. */
  method ScanChildren(arr: array<TaskPool>, child: array<int>, first: nat, k: nat, racing: bool)
    returns (minChild: Long, minChildIndex: nat)
    requires child.Length == k + 1
    requires forall j :: 1 <= j <= k ==> child[j] == if first + j < arr.Length then first + j else -1
    ensures minChild != LONG_MAX ==> first < minChildIndex <= first + k && minChildIndex < arr.Length
    ensures !racing ==> Least(Keys(arr), first, k) == if minChild == LONG_MAX then 0 else minChildIndex
  {
    ghost var keys := Keys(arr);
    minChild := LONG_MAX;
    minChildIndex := *;
    for i := 1 to k + 1
      invariant minChild != LONG_MAX ==> first < minChildIndex <= first + k && minChildIndex < arr.Length
      invariant !racing && minChild != LONG_MAX ==> keys[minChildIndex] == minChild
      invariant !racing ==> Least(keys, first, i - 1) == if minChild == LONG_MAX then 0 else minChildIndex
    {
      if child[i] != -1 {
        var v := ReadPriority(arr[child[i]], racing);
        if v < minChild {
          minChildIndex := child[i];
          minChild := ReadPriority(arr[child[i]], racing);
        }
      }
    }
  }

  /** The two loops together. `minChild == LONG_MAX` says that there is no such child. */
  method FindMinChild(arr: array<TaskPool>, len: nat, index: nat, k: nat, racing: bool)
    returns (minChild: Long, minChildIndex: nat)
    requires k > 0 && len == arr.Length
    ensures minChild != LONG_MAX ==> 0 < minChildIndex < len && Parent(minChildIndex, k) == index
    ensures !racing ==> LeastChild(Keys(arr), k, index) == if minChild == LONG_MAX then 0 else minChildIndex
    ensures !racing && minChild != LONG_MAX ==> IsMinChild(Keys(arr), k, index, minChildIndex)
    ensures !racing && minChild == LONG_MAX ==>
              forall c :: 0 < c < len && Parent(c, k) == index ==> Keys(arr)[c] == 0x7FFF_FFFF_FFFF_FFFF
  {
    var child := FillChildren(len, index, k);
    minChild, minChildIndex := ScanChildren(arr, child, k * index, k, racing);
    ChildrenAreBlock(len, k, index);
    LeastIsMinChild(Keys(arr), k, index);
  }

  method SwapPools(arr: array<TaskPool>, i: nat, j: nat)
    requires i < arr.Length && j < arr.Length
    modifies arr
    ensures arr[..] == Swap(old(arr[..]), i, j)
  {
    var a := arr[i];
    var b := arr[j];
    arr[i] := b;
    arr[j] := a;
  }

  lemma SwappedKeys(before: seq<TaskPool>, after: seq<TaskPool>, i: nat, j: nat, keys: seq<int>, swapped: seq<int>)
    requires i < |before| == |keys| == |swapped| && j < |before| && after == Swap(before, i, j)
    requires forall x :: 0 <= x < |before| ==> keys[x] == before[x].dheapPriority
    requires forall x :: 0 <= x < |before| ==> swapped[x] == after[x].dheapPriority
    ensures swapped == Swap(keys, i, j)
  {
  }

  /** The exchange of a pool with its least child. */
  method SwapIfLarger(arr: array<TaskPool>, index: nat, minChildIndex: nat, racing: bool)
    requires index < arr.Length && minChildIndex < arr.Length
    modifies arr
    ensures multiset(arr[..]) == multiset(old(arr[..]))
    ensures !racing ==> Keys(arr) == Descend(old(Keys(arr)), index, minChildIndex)
    ensures !racing && old(Keys(arr)[index] > Keys(arr)[minChildIndex]) ==>
              arr[..] == Swap(old(arr[..]), index, minChildIndex)
    ensures !racing && old(Keys(arr)[index] <= Keys(arr)[minChildIndex]) ==> arr[..] == old(arr[..])
  {
    ghost var before, keys := arr[..], Keys(arr);
    var keyA := ReadPriority(arr[index], racing);
    var keyB := ReadPriority(arr[minChildIndex], racing);
    if keyA > keyB {
      SwapPools(arr, index, minChildIndex);
      SwapIsPermutation(before, index, minChildIndex);
      SwappedKeys(before, arr[..], index, minChildIndex, keys, Keys(arr));
    }
  }

  /** The exchange as a part of a descent. */
  method ExchangeOnce(arr: array<TaskPool>, start: nat, index: nat, m: nat, k: nat, racing: bool)
    requires k > 0 && start <= index < arr.Length && m < arr.Length
    requires !racing ==> HeapExcept(Keys(arr), k, start, index)
    requires !racing ==> IsMinChild(Keys(arr), k, index, m) && LeastChild(Keys(arr), k, index) == m
    modifies arr
    ensures multiset(arr[..]) == multiset(old(arr[..]))
    ensures !racing ==> HeapExcept(Keys(arr), k, start, m)
    ensures !racing ==> Sift(arr[..], Keys(arr), k, m) == Sift(old(arr[..]), old(Keys(arr)), k, index)
    ensures !racing && old(HeapFrom(Keys(arr), k, start)) ==> arr[..] == old(arr[..]) && Keys(arr) == old(Keys(arr))
  {
    ghost var elements, keys := arr[..], Keys(arr);
    if !racing && HeapFrom(keys, k, start) {
      DescendIdle(keys, k, start, index, m);
    }
    SwapIfLarger(arr, index, m, racing);
    if !racing {
      SiftRound(elements, keys, arr[..], k, index, m);
      DescendKeeps(keys, Keys(arr), k, start, index, m);
    }
  }

  /** One round of the descent: `next` is the least child, or `None` below which there is nothing. */
  method DescendOnce(arr: array<TaskPool>, len: nat, start: nat, index: nat, k: nat, racing: bool)
    returns (next: Option<nat>)
    requires k > 0 && start <= index < len == arr.Length
    requires !racing ==> HeapExcept(Keys(arr), k, start, index)
    modifies arr
    ensures multiset(arr[..]) == multiset(old(arr[..]))
    ensures next.Some? ==> 0 < next.value < len && Parent(next.value, k) == index
    ensures !racing && next.None? ==> HeapFrom(Keys(arr), k, start)
    ensures !racing && next.Some? ==> HeapExcept(Keys(arr), k, start, next.value)
    ensures !racing && next.Some? ==>
              Sift(arr[..], Keys(arr), k, next.value) == Sift(old(arr[..]), old(Keys(arr)), k, index)
    ensures !racing && next.None? ==> (arr[..], Keys(arr)) == Sift(old(arr[..]), old(Keys(arr)), k, index)
    ensures !racing && old(HeapFrom(Keys(arr), k, start)) ==> arr[..] == old(arr[..]) && Keys(arr) == old(Keys(arr))
  {
    ghost var keys := Keys(arr);
    var minChild, minChildIndex := FindMinChild(arr, len, index, k, racing);
    if minChild == LONG_MAX {
      if !racing {
        DescendDone(keys, k, start, index, LONG_MAX);
        SiftEnds(arr[..], keys, k, index);
      }
      return None;
    }
    ExchangeOnce(arr, start, index, minChildIndex, k, racing);
    next := Some(minChildIndex);
  }

  /** The index reached is not returned; `descents` counts the moves to a child. */
  method RestoreDown(arr: array<TaskPool>, len: nat, start: nat, k: nat, racing: bool) returns (ghost descents: nat)
    requires k > 0 && start < len == arr.Length
    requires !racing ==> HeapFrom(Keys(arr), k, start + 1)
    modifies arr
    ensures multiset(arr[..]) == multiset(old(arr[..]))
    ensures descents <= Height(start, len, k)
    ensures !racing ==> HeapFrom(Keys(arr), k, start)
    ensures !racing ==> (arr[..], Keys(arr)) == Sift(old(arr[..]), old(Keys(arr)), k, start)
    ensures !racing && old(HeapFrom(Keys(arr), k, start)) ==> arr[..] == old(arr[..])
  {
    var index := start;
    descents := 0;
    ghost var before, keys := arr[..], Keys(arr);
    ghost var isHeap, goal := HeapFrom(keys, k, start), Sift(before, keys, k, start);
    if !racing {
      StartDescend(keys, k, start);
    }
    while true
      invariant start <= index < len
      invariant multiset(arr[..]) == multiset(before)
      invariant descents + Height(index, len, k) <= Height(start, len, k)
      invariant !racing ==> HeapExcept(Keys(arr), k, start, index)
      invariant !racing ==> Sift(arr[..], Keys(arr), k, index) == goal
      invariant !racing && isHeap ==> arr[..] == before && Keys(arr) == keys
      decreases Height(index, len, k)
    {
      var next := DescendOnce(arr, len, start, index, k, racing);
      if next.None? {
        break;
      }
      HeightOfChild(index, next.value, len, k);
      index := next.value;
      descents := descents + 1;
    }
  }
}
