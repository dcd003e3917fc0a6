/** The index tree of a k-ary heap stored in a sequence, its order and its heights. */
module HeapOrder {
  import opened Arithmetic

  /** The parent of index `index` in a tree of breadth `depth`, as an expression. */
  function GetParentIndex(index: nat, depth: nat): nat
    requires index > 0 && depth > 0
  {
    (index - 1) / depth
  }

  /** Child number `nthChild`, counted from zero, of `parent`. */
  function GetChildIndex(parent: nat, nthChild: nat, depth: nat): nat {
    depth * parent + nthChild + 1
  }

  /** The node above `c`: one further right for every block of `k` children. */
  function Parent(c: nat, k: nat): (p: nat)
    requires c > 0 && k > 0
    ensures p < c
  {
    if c <= k then 0 else 1 + Parent(c - k, k)
  }

  /** The leftmost child of `p`: one block of `k` children further for every node. */
  function FirstChild(p: nat, k: nat): (c: nat)
    requires k > 0
    ensures p < c
  {
    if p == 0 then 1 else FirstChild(p - 1, k) + k
  }

  /** The children of `p` are one block of `k` consecutive indices. */
  lemma {:induction false} ParentBlock(p: nat, c: nat, k: nat)
    requires c > 0 && k > 0
    ensures Parent(c, k) == p <==> FirstChild(p, k) <= c < FirstChild(p, k) + k
    decreases c
  {
    if c > k {
      if p > 0 {
        ParentBlock(p - 1, c - k, k);
      }
    } else if p > 0 {
      FirstChildBeyond(p, k);
    }
  }

  lemma {:induction false} FirstChildBeyond(p: nat, k: nat)
    requires p > 0 && k > 0
    ensures FirstChild(p, k) > k
  {
    if p > 1 {
      FirstChildBeyond(p - 1, k);
    }
  }

  lemma {:induction false} FirstChildIs(p: nat, k: nat)
    requires k > 0
    ensures FirstChild(p, k) == k * p + 1
  {
    if p > 0 {
      FirstChildIs(p - 1, k);
      assert k * p == k * (p - 1) + k;
    }
  }

  lemma {:induction false} FirstChildMonotone(i: nat, j: nat, k: nat)
    requires k > 0 && i <= j
    ensures FirstChild(i, k) <= FirstChild(j, k)
    decreases j
  {
    if i < j {
      FirstChildMonotone(i, j - 1, k);
    }
  }

  /** The two index expressions are inverse to each other and describe the tree of `Parent`. */
  lemma IndexExpressions(p: nat, nth: nat, k: nat)
    requires nth < k
    ensures Parent(GetChildIndex(p, nth, k), k) == p
    ensures GetParentIndex(GetChildIndex(p, nth, k), k) == p
  {
    FirstChildIs(p, k);
    ParentBlock(p, GetChildIndex(p, nth, k), k);
    assert p * k == k * p;
    DivModUnique(GetChildIndex(p, nth, k) - 1, k, p, nth);
  }

  predicate NoLarger(a: seq<int>, i: nat, j: nat)
    requires i < |a| && j < |a|
  {
    a[i] <= a[j]
  }

  /** Every node from `lo` on is no larger than its children. */
  ghost predicate HeapFrom(a: seq<int>, k: nat, lo: nat)
    requires k > 0
  {
    forall c :: 0 < c < |a| && Parent(c, k) >= lo ==> NoLarger(a, Parent(c, k), c)
  }

  ghost predicate IsHeap(a: seq<int>, k: nat)
    requires k > 0
  {
    HeapFrom(a, k, 0)
  }

  /** As `HeapFrom`, but the edges out of `hole` need not be in order; the parent of `hole` is no
      larger than the children of `hole`. */
  ghost predicate HeapExcept(a: seq<int>, k: nat, lo: nat, hole: nat)
    requires k > 0 && hole < |a|
  {
    && (forall c :: 0 < c < |a| && Parent(c, k) >= lo && Parent(c, k) != hole ==> NoLarger(a, Parent(c, k), c))
    && (hole > 0 && Parent(hole, k) >= lo ==>
          forall c :: 0 < c < |a| && Parent(c, k) == hole ==> NoLarger(a, Parent(hole, k), c))
  }

  /** The children of `p` are the indices the scan looks at. */
  lemma ChildrenAreBlock(n: nat, k: nat, p: nat)
    requires k > 0
    ensures forall c {:trigger Parent(c, k)} :: 0 < c < n ==> (Parent(c, k) == p <==> k * p < c <= k * p + k)
  {
    FirstChildIs(p, k);
    forall c | 0 < c < n
      ensures Parent(c, k) == p <==> k * p < c <= k * p + k
    {
      ParentBlock(p, c, k);
    }
  }

  /** No node after `(n - 1) / k` has a child. */
  lemma NoChildrenBeyond(keys: seq<int>, k: nat, d: nat)
    requires k > 0 && |keys| > 0 && d == (|keys| - 1) / k
    ensures d < |keys| && HeapFrom(keys, k, d + 1)
  {
    var n := |keys|;
    FirstChildIs(d + 1, k);
    assert n - 1 == d * k + (n - 1) % k;
    assert k * (d + 1) == d * k + k;
    forall c | 0 < c < n
      ensures Parent(c, k) <= d
    {
      ParentBlock(Parent(c, k), c, k);
      if Parent(c, k) > d {
        FirstChildMonotone(d + 1, Parent(c, k), k);
      }
    }
    ChildIndexBounds(d, n, k);
  }

  lemma ChildIndexBounds(d: nat, n: nat, k: nat)
    requires k > 0 && n > 0 && d * k < n
    ensures d < n
  {
    if d > 0 {
      MulSign(k, d);
      assert d * k == k * d;
    }
  }

  /** The root of a heap is a minimum. */
  lemma {:induction false} RootIsMin(a: seq<int>, k: nat, j: nat)
    requires k > 0 && IsHeap(a, k) && j < |a|
    ensures a[0] <= a[j]
    decreases j
  {
    if j > 0 {
      assert NoLarger(a, Parent(j, k), j);
      RootIsMin(a, k, Parent(j, k));
    }
  }

  /** The index chosen by the scan over the children of `hole`. */
  ghost predicate IsMinChild(a: seq<int>, k: nat, hole: nat, m: nat)
    requires k > 0
  {
    && 0 < m < |a| && Parent(m, k) == hole
    && forall c {:trigger Parent(c, k)} :: 0 < c < |a| && Parent(c, k) == hole ==> a[m] <= a[c]
  }

  function Swap<T>(a: seq<T>, i: nat, j: nat): (b: seq<T>)
    requires i < |a| && j < |a|
    ensures |b| == |a|
  {
    a[i := a[j]][j := a[i]]
  }

  lemma SwapIsPermutation<T>(a: seq<T>, i: nat, j: nat)
    requires i < |a| && j < |a|
    ensures multiset(Swap(a, i, j)) == multiset(a)
  {
  }

  /** The keys after one round of the descent. */
  function Descend(a: seq<int>, hole: nat, m: nat): (b: seq<int>)
    requires hole < |a| && m < |a|
    ensures |b| == |a|
  {
    if a[hole] > a[m] then Swap(a, hole, m) else a
  }

  /** One round moves the hole to its least child, with an exchange or without. */
  lemma DescendKeeps(a: seq<int>, b: seq<int>, k: nat, lo: nat, hole: nat, m: nat)
    requires k > 0 && lo <= hole < |a| && HeapExcept(a, k, lo, hole) && IsMinChild(a, k, hole, m)
    requires b == Descend(a, hole, m)
    ensures HeapExcept(b, k, lo, m)
  {
    forall c | 0 < c < |b| && Parent(c, k) >= lo && Parent(c, k) != m
      ensures NoLarger(b, Parent(c, k), c)
    {
      assert Parent(c, k) != hole ==> NoLarger(a, Parent(c, k), c);
      assert c == hole ==> NoLarger(a, Parent(hole, k), m);
    }
    forall c | 0 < c < |b| && Parent(c, k) == m
      ensures NoLarger(b, Parent(m, k), c)
    {
      assert NoLarger(a, Parent(c, k), c);
    }
  }

  /** In a heap the round makes no exchange. */
  lemma DescendIdle(a: seq<int>, k: nat, lo: nat, hole: nat, m: nat)
    requires k > 0 && lo <= hole < |a| && HeapFrom(a, k, lo) && 0 < m < |a| && Parent(m, k) == hole
    ensures a[hole] <= a[m]
  {
    assert NoLarger(a, Parent(m, k), m);
  }

  /** A hole whose children are all at the top of the range of keys is no hole. */
  lemma DescendDone(a: seq<int>, k: nat, lo: nat, hole: nat, max: int)
    requires k > 0 && lo <= hole < |a| && HeapExcept(a, k, lo, hole)
    requires forall j :: 0 <= j < |a| ==> a[j] <= max
    requires forall c {:trigger Parent(c, k)} :: 0 < c < |a| && Parent(c, k) == hole ==> a[c] == max
    ensures HeapFrom(a, k, lo)
  {
  }

  /** A heap from the next node on is a heap but for this node. */
  lemma StartDescend(a: seq<int>, k: nat, start: nat)
    requires k > 0 && start < |a| && HeapFrom(a, k, start + 1)
    ensures HeapExcept(a, k, start, start)
  {
  }

  /** The number of edges on the longest path down from node `i` of a tree of `n` nodes: the
      leftmost path, since the tree is filled from the left. */
  function Height(i: nat, n: nat, k: nat): nat
    requires k > 0
    decreases n - i
  {
    if FirstChild(i, k) < n then 1 + Height(FirstChild(i, k), n, k) else 0
  }

  /** Nodes further right are no higher. */
  lemma {:induction false} HeightAntitone(i: nat, j: nat, n: nat, k: nat)
    requires k > 0 && i <= j
    ensures Height(j, n, k) <= Height(i, n, k)
    decreases n - i
  {
    if FirstChild(j, k) < n {
      FirstChildMonotone(i, j, k);
      HeightAntitone(FirstChild(i, k), FirstChild(j, k), n, k);
    }
  }

  /** Every edge followed downwards uses up at least one unit of height. */
  lemma HeightOfChild(i: nat, c: nat, n: nat, k: nat)
    requires k > 0 && 0 < c < n && Parent(c, k) == i
    ensures Height(c, n, k) < Height(i, n, k)
  {
    ParentBlock(i, c, k);
    HeightAntitone(FirstChild(i, k), c, n, k);
  }

  /** The sum of the heights of the first `m` nodes. */
  function SumHeights(m: nat, n: nat, k: nat): nat
    requires k > 0
  {
    if m == 0 then 0 else SumHeights(m - 1, n, k) + Height(m - 1, n, k)
  }

  /** How many of `n` nodes have a child. */
  function Internal(n: nat, k: nat): nat
    requires n > 0 && k > 0
  {
    (n + k - 2) / k
  }

  lemma InternalIff(i: nat, n: nat, k: nat)
    requires n > 0 && k > 0
    ensures i < Internal(n, k) <==> FirstChild(i, k) < n
  {
    var p := Internal(n, k);
    FirstChildIs(i, k);
    assert n + k - 2 == p * k + (n + k - 2) % k;
    assert i * k == k * i;
    if i < p {
      MulStep(i, p, k);
    } else if p < i {
      MulStep(p, i, k);
    }
  }

  /** Removing the leaves lowers every other node by one. */
  lemma {:induction false} HeightPeel(i: nat, n: nat, k: nat)
    requires n > 0 && k > 0 && i < Internal(n, k)
    ensures Height(i, n, k) == 1 + Height(i, Internal(n, k), k)
    decreases n - i
  {
    var p := Internal(n, k);
    InternalIff(i, n, k);
    InternalIff(FirstChild(i, k), n, k);
    if FirstChild(i, k) < p {
      HeightPeel(FirstChild(i, k), n, k);
    }
  }

  lemma {:induction false} SumHeightsPeel(m: nat, n: nat, k: nat)
    requires n > 0 && k > 0 && m <= Internal(n, k)
    ensures SumHeights(m, n, k) == m + SumHeights(m, Internal(n, k), k)
  {
    if m > 0 {
      HeightPeel(m - 1, n, k);
      SumHeightsPeel(m - 1, n, k);
    }
  }

  /** Leaves contribute nothing. */
  lemma {:induction false} SumHeightsLeaves(m: nat, n: nat, k: nat)
    requires n > 0 && k > 0 && Internal(n, k) <= m
    ensures SumHeights(m, n, k) == SumHeights(Internal(n, k), n, k)
    decreases m
  {
    if m > Internal(n, k) {
      InternalIff(m - 1, n, k);
      SumHeightsLeaves(m - 1, n, k);
    }
  }

  /** The work recurrence: removing the leaves removes one unit of work per internal node. */
  lemma SumHeightsRecurrence(n: nat, k: nat)
    requires n > 0 && k > 0
    ensures SumHeights(n, n, k) == Internal(n, k) + SumHeights(Internal(n, k), Internal(n, k), k)
  {
    InternalIff(n, n, k);
    FirstChildIs(n, k);
    SumHeightsLeaves(n, n, k);
    SumHeightsPeel(Internal(n, k), n, k);
  }

  /** In a tree that branches at least twice the heights add up to less than the number of nodes. */
  lemma {:induction false} SumHeightsLinear(n: nat, k: nat)
    requires n > 0 && k >= 2
    ensures SumHeights(n, n, k) <= n - 1
    decreases n
  {
    var p := Internal(n, k);
    HalfInternal(n, k);
    SumHeightsRecurrence(n, k);
    if n > 1 {
      InternalIff(0, n, k);
      SumHeightsLinear(p, k);
    }
  }

  lemma HalfInternal(n: nat, k: nat)
    requires n > 0 && k >= 2
    ensures n == 1 ==> Internal(n, k) == 0
    ensures n > 1 ==> 2 * Internal(n, k) <= n
  {
    var p := Internal(n, k);
    if n == 1 {
      DivModUnique(n + k - 2, k, 0, k - 1);
    } else {
      InternalIff(0, n, k);
      InternalIff(p - 1, n, k);
      FirstChildIs(p - 1, k);
      if p > 1 {
        MulStep(1, k, p - 1);
        assert 2 * (p - 1) <= k * (p - 1);
      }
    }
  }

  lemma {:induction false} SumHeightsMonotone(m: nat, m': nat, n: nat, k: nat)
    requires k > 0 && m <= m'
    ensures SumHeights(m, n, k) <= SumHeights(m', n, k)
    decreases m'
  {
    if m < m' {
      SumHeightsMonotone(m, m' - 1, n, k);
    }
  }
}
