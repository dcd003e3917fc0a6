/** The buffer of the pool allocator as memory: cells, pointers stored in them, and the layout of the
    nodes. Addresses count from the start of the buffer. */
module PoolMemory {
  import opened Arithmetic

  type Positive = x: int | x > 0 witness 1

  /** The size of a pointer, which is also the size of a node without its data. It is left open. */
  const POINTER_SIZE: Positive

  /** The size of the allocator's descriptor, two integers of 32 bits and a pointer. The buffer is
      allocated with this much per node on top of the data, although a node only needs a pointer. */
  const DESCRIPTOR_SIZE := 8 + POINTER_SIZE

  datatype Pointer = Null | At(offset: nat)

  type byte = x: int | 0 <= x < 0x100

  /** One cell of memory: a byte of data, or byte number `k` of a stored pointer. */
  datatype Cell = Data(value: byte) | Fragment(target: Pointer, k: nat)

  predicate HoldsPointer(m: seq<Cell>, a: nat) {
    && a + POINTER_SIZE <= |m|
    && m[a].Fragment?
    && forall k :: 0 <= k < POINTER_SIZE ==> m[a + k] == Fragment(m[a].target, k)
  }

  function Load(m: seq<Cell>, a: nat): Pointer
    requires HoldsPointer(m, a)
  {
    m[a].target
  }

  function Store(m: seq<Cell>, a: nat, p: Pointer): (m': seq<Cell>)
    requires a + POINTER_SIZE <= |m|
    ensures |m'| == |m|
  {
    seq(|m|, i requires 0 <= i < |m| => if a <= i < a + POINTER_SIZE then Fragment(p, i - a) else m[i])
  }

  lemma LoadStored(m: seq<Cell>, a: nat, p: Pointer)
    requires a + POINTER_SIZE <= |m|
    ensures HoldsPointer(Store(m, a, p), a) && Load(Store(m, a, p), a) == p
  {
  }

  lemma LoadElsewhere(m: seq<Cell>, a: nat, p: Pointer, b: nat)
    requires a + POINTER_SIZE <= |m| && HoldsPointer(m, b)
    requires b + POINTER_SIZE <= a || a + POINTER_SIZE <= b
    ensures HoldsPointer(Store(m, a, p), b) && Load(Store(m, a, p), b) == Load(m, b)
  {
    var m' := Store(m, a, p);
    assert m'[b] == m[b];
    forall k | 0 <= k < POINTER_SIZE
      ensures m'[b + k] == Fragment(m'[b].target, k)
    {
      assert m'[b + k] == m[b + k];
    }
  }

  /** Storing what is there already changes nothing. */
  lemma StoreLoaded(m: seq<Cell>, a: nat)
    requires HoldsPointer(m, a)
    ensures Store(m, a, Load(m, a)) == m
  {
    forall i | a <= i < a + POINTER_SIZE
      ensures m[i] == Fragment(Load(m, a), i - a)
    {
      assert m[a + (i - a)] == Fragment(m[a].target, i - a);
    }
    assert Store(m, a, Load(m, a)) == m;
  }

  /** The second of two stores to the same place counts, and stores to different places commute. */
  lemma StoreTwice(m: seq<Cell>, a: nat, p: Pointer, b: nat, q: Pointer, r: Pointer)
    requires a + POINTER_SIZE <= |m| && b + POINTER_SIZE <= |m|
    requires b + POINTER_SIZE <= a || a + POINTER_SIZE <= b
    ensures Store(Store(Store(m, a, p), b, q), a, r) == Store(Store(m, a, r), b, q)
  {
    assert Store(Store(Store(m, a, p), b, q), a, r) == Store(Store(m, a, r), b, q);
  }

  /** `num` nodes, each a pointer followed by `itemsize` bytes of data. */
  datatype Layout = Layout(num: nat, itemsize: nat) {
    function Stride(): nat {
      itemsize + POINTER_SIZE
    }

    /** The address of node `i`. */
    function Node(i: nat): nat {
      if i == 0 then 0 else Node(i - 1) + Stride()
    }

    /** The address of the data of node `i`. */
    function Item(i: nat): nat {
      Node(i) + POINTER_SIZE
    }

    /** What is allocated for `n` nodes. */
    function Allocated(n: nat): nat {
      if n == 0 then 0 else Allocated(n - 1) + itemsize + DESCRIPTOR_SIZE
    }

    function BufferSize(): nat {
      Allocated(num)
    }

    /** The item address as one product. */
    function ItemByIndex(i: nat): nat {
      (itemsize + POINTER_SIZE) * i + POINTER_SIZE
    }

    /** The index computed from an item address; the divisor lacks the size of the node header. */
    function GetIndex(data: nat): nat
      requires itemsize > 0
    {
      data / itemsize
    }

    lemma {:induction false} NodeIs(i: nat)
      ensures Node(i) == Stride() * i
      ensures Item(i) == ItemByIndex(i)
    {
      if i > 0 {
        NodeIs(i - 1);
        assert Stride() * i == Stride() * (i - 1) + Stride();
      }
    }

    /** Nodes do not overlap: each ends before the next begins. */
    lemma {:induction false} Apart(i: nat, j: nat)
      requires i < j
      ensures Node(i) + Stride() <= Node(j)
      decreases j
    {
      if i < j - 1 {
        Apart(i, j - 1);
      }
    }

    lemma {:induction false} AllocatedIs(n: nat)
      ensures Allocated(n) == n * (itemsize + DESCRIPTOR_SIZE)
    {
      if n > 0 {
        AllocatedIs(n - 1);
        assert n * (itemsize + DESCRIPTOR_SIZE) == (n - 1) * (itemsize + DESCRIPTOR_SIZE) + itemsize + DESCRIPTOR_SIZE;
      }
    }

    /** Nodes are inside the buffer. */
    lemma {:induction false} Inside(i: nat)
      requires i < num
      ensures Item(i) + itemsize <= BufferSize()
    {
      NodeWithinAllocated(i + 1);
      AllocatedMonotone(i + 1, num);
    }

    lemma {:induction false} NodeWithinAllocated(n: nat)
      ensures Node(n) <= Allocated(n)
    {
      if n > 0 {
        NodeWithinAllocated(n - 1);
      }
    }

    lemma {:induction false} AllocatedMonotone(i: nat, j: nat)
      requires i <= j
      ensures Allocated(i) <= Allocated(j)
      decreases j
    {
      if i < j {
        AllocatedMonotone(i, j - 1);
      }
    }

    /** The data of different nodes is disjoint, and disjoint from every link. */
    lemma ItemsDisjoint(i: nat, j: nat)
      ensures i != j ==> Item(i) + itemsize <= Item(j) || Item(j) + itemsize <= Item(i)
      ensures Item(i) + itemsize <= Node(j) || Node(j) + POINTER_SIZE <= Item(i)
      ensures i != j ==> Node(i) + POINTER_SIZE <= Node(j) || Node(j) + POINTER_SIZE <= Node(i)
    {
      if i < j {
        Apart(i, j);
      } else if j < i {
        Apart(j, i);
      }
    }

    lemma NodesDiffer(i: nat, j: nat)
      ensures Node(i) == Node(j) <==> i == j
    {
      ItemsDisjoint(i, j);
    }

    /** What the index computation gives for item `i`: the headers in front of the item are counted as
        data. So it is the index of the item exactly if all these headers together are smaller than one
        item. */
    lemma GetIndexOfItem(i: nat)
      requires itemsize > 0
      ensures GetIndex(ItemByIndex(i)) == i + POINTER_SIZE * (i + 1) / itemsize
      ensures GetIndex(ItemByIndex(i)) == i <==> POINTER_SIZE * (i + 1) < itemsize
    {
      Distribute(itemsize, POINTER_SIZE, i);
      DivShift(i, itemsize, POINTER_SIZE * (i + 1));
    }

    /** The index computation is right for all nodes exactly if it is right for the last one. */
    lemma GetIndexInverts()
      requires itemsize > 0 && num > 0
      ensures (forall i: nat :: i < num ==> GetIndex(ItemByIndex(i)) == i) <==> POINTER_SIZE * num < itemsize
    {
      GetIndexOfItem(num - 1);
      if POINTER_SIZE * num < itemsize {
        forall i: nat | i < num
          ensures GetIndex(ItemByIndex(i)) == i
        {
          GetIndexOfItem(i);
          HeadersInFront(i + 1, num);
        }
      }
    }

    lemma HeadersInFront(i: nat, j: nat)
      requires i <= j
      ensures POINTER_SIZE * i <= POINTER_SIZE * j
    {
      if i < j {
        MulStep(i, j, POINTER_SIZE);
      }
    }
  }

  /** For items of the size of a pointer the computation is wrong from the first item on. */
  lemma GetIndexWrong()
    ensures var l := Layout(2, POINTER_SIZE); l.GetIndex(l.ItemByIndex(1)) == 3
  {
    var l := Layout(2, POINTER_SIZE);
    assert l.ItemByIndex(1) == 3 * POINTER_SIZE;
    DivModUnique(3 * POINTER_SIZE, POINTER_SIZE, 3, 0);
  }
}
