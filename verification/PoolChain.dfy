/** The free list threaded through the buffer, what obtaining and returning a block do to it, and what
    every sequence of these operations, and of writes of the users to their blocks, keeps. */
module PoolChain {
  import opened PoolMemory

  /** Following the links from node `from` visits exactly the nodes `free`, in order, and then ends. */
  ghost predicate Links(l: Layout, m: seq<Cell>, from: nat, free: seq<nat>)
    decreases |free|
  {
    && HoldsPointer(m, l.Node(from))
    && if free == [] then Load(m, l.Node(from)) == Null
       else Load(m, l.Node(from)) == At(l.Node(free[0])) && Links(l, m, free[0], free[1..])
  }

  /** The chain is determined by the memory. */
  lemma {:induction false} LinksUnique(l: Layout, m: seq<Cell>, from: nat, f: seq<nat>, g: seq<nat>)
    requires Links(l, m, from, f) && Links(l, m, from, g)
    ensures f == g
    decreases |f|
  {
    if f != [] && g != [] {
      l.NodesDiffer(f[0], g[0]);
      LinksUnique(l, m, f[0], f[1..], g[1..]);
      assert f == [f[0]] + f[1..] && g == [g[0]] + g[1..];
    }
  }

  /** The links of the nodes on the chain are all that matters. */
  lemma {:induction false} LinksFrame(l: Layout, m: seq<Cell>, m': seq<Cell>, from: nat, free: seq<nat>)
    requires Links(l, m, from, free)
    requires forall n :: n == from || n in free ==>
               HoldsPointer(m, l.Node(n)) ==>
                 HoldsPointer(m', l.Node(n)) && Load(m', l.Node(n)) == Load(m, l.Node(n))
    ensures Links(l, m', from, free)
    decreases |free|
  {
    if free != [] {
      LinksFrame(l, m, m', free[0], free[1..]);
    }
  }

  /** Take the first node off the chain; the result is the address of its data. */
  function ObtainBlock(m: seq<Cell>): (seq<Cell>, Pointer)
    requires HoldsPointer(m, 0)
    requires Load(m, 0).At? ==> HoldsPointer(m, Load(m, 0).offset)
  {
    if Load(m, 0) == Null then (m, Null)
    else
      var node := Load(m, 0).offset;
      (Store(m, 0, Load(m, node)), At(node + POINTER_SIZE))
  }

  /** Put the node with the data at `data` in front of the chain. */
  function ReturnBlock(m: seq<Cell>, data: nat): seq<Cell>
    requires POINTER_SIZE <= data <= |m| && HoldsPointer(m, 0)
  {
    var node := data - POINTER_SIZE;
    Store(Store(m, node, Load(m, 0)), 0, At(node))
  }

  /** The memory, the chain of free nodes in it, and the nodes that have been handed out. */
  datatype Allocator = Allocator(mem: seq<Cell>, free: seq<nat>, out: set<nat>)

  predicate NoDuplicates(s: seq<nat>) {
    forall i, j :: 0 <= i < j < |s| ==> s[i] != s[j]
  }

  /** Node 0 is where the chain starts and is never on it. The chain ends, does not repeat a node, and
      together with the nodes handed out it has every other node once. */
  ghost predicate Inv(l: Layout, h: Allocator) {
    && l.num > 0 && |h.mem| == l.BufferSize()
    && Links(l, h.mem, 0, h.free) && NoDuplicates(h.free)
    && (forall n :: n in h.free || n in h.out <==> 0 < n < l.num)
    && (forall n :: n in h.free ==> n !in h.out)
    && |h.free| + |h.out| == l.num - 1
  }

  /** The operations on the allocator, and a user's write of one cell of its block. */
  datatype Operation = Obtain | Return(node: nat) | Write(node: nat, offset: nat, cell: Cell)

  predicate Legal(l: Layout, h: Allocator, op: Operation) {
    match op
    case Obtain => true
    case Return(n) => n in h.out
    case Write(n, offset, _) => n in h.out && offset < l.itemsize
  }

  /** The result of one operation; `None` where the operation has none. */
  function Step(l: Layout, h: Allocator, op: Operation): (h': Allocator)
    requires Inv(l, h) && Legal(l, h, op)
    ensures Inv(l, h')
  {
    match op
    case Obtain =>
      ObtainKeeps(l, h);
      if h.free == [] then h
      else Allocator(ObtainBlock(h.mem).0, h.free[1..], h.out + {h.free[0]})
    case Return(n) =>
      ReturnKeeps(l, h, n);
      Allocator(ReturnBlock(h.mem, l.Item(n)), [n] + h.free, h.out - {n})
    case Write(n, offset, cell) =>
      WriteKeeps(l, h, n, offset, cell);
      h.(mem := h.mem[l.Item(n) + offset := cell])
  }

  lemma NodeInside(l: Layout, h: Allocator, n: nat)
    requires Inv(l, h) && n < l.num
    ensures l.Item(n) + l.itemsize <= |h.mem|
  {
    l.Inside(n);
  }

  /** A store to the link of a node that is not on the chain leaves the chain alone. */
  lemma StoreFrame(l: Layout, m: seq<Cell>, x: nat, p: Pointer, from: nat, free: seq<nat>)
    requires Links(l, m, from, free) && from != x && x !in free
    requires l.Node(x) + POINTER_SIZE <= |m|
    ensures Links(l, Store(m, l.Node(x), p), from, free)
  {
    var m' := Store(m, l.Node(x), p);
    forall n | (n == from || n in free) && HoldsPointer(m, l.Node(n))
      ensures HoldsPointer(m', l.Node(n)) && Load(m', l.Node(n)) == Load(m, l.Node(n))
    {
      l.ItemsDisjoint(x, n);
      LoadElsewhere(m, l.Node(x), p, l.Node(n));
    }
    LinksFrame(l, m, m', from, free);
  }

  /** The first node of the chain taken off, in memory. */
  lemma ObtainLinks(l: Layout, m: seq<Cell>, first: nat, rest: seq<nat>)
    requires HoldsPointer(m, 0) && Load(m, 0) == At(l.Node(first)) && Links(l, m, first, rest)
    requires forall n :: n in rest ==> n > 0
    ensures Links(l, Store(m, 0, Load(m, l.Node(first))), 0, rest)
  {
    assert l.Node(0) == 0;
    LoadStored(m, 0, Load(m, l.Node(first)));
    if rest != [] {
      assert rest[0] in rest;
      forall n | n in rest[1..]
        ensures n > 0
      {
        assert n in rest;
      }
      StoreFrame(l, m, 0, Load(m, l.Node(first)), rest[0], rest[1..]);
    }
  }

  /** Obtaining a block hands out the first node of the chain, or nothing if the chain is empty. */
  lemma ObtainKeeps(l: Layout, h: Allocator)
    requires Inv(l, h)
    ensures HoldsPointer(h.mem, 0) && (Load(h.mem, 0).At? ==> HoldsPointer(h.mem, Load(h.mem, 0).offset))
    ensures h.free == [] ==> ObtainBlock(h.mem) == (h.mem, Null)
    ensures h.free != [] ==>
              && ObtainBlock(h.mem).1 == At(l.Item(h.free[0])) && h.free[0] !in h.out
              && Inv(l, Allocator(ObtainBlock(h.mem).0, h.free[1..], h.out + {h.free[0]}))
  {
    assert l.Node(0) == 0;
    if h.free != [] {
      var first, rest := h.free[0], h.free[1..];
      FirstIsNew(h.free);
      assert first !in h.out;
      assert forall n :: n in h.free ==> 0 < n < l.num;
      ObtainLinks(l, h.mem, first, rest);
    }
  }

  lemma FirstIsNew(s: seq<nat>)
    requires s != [] && NoDuplicates(s)
    ensures s[0] in s && s[0] !in s[1..] && NoDuplicates(s[1..])
    ensures forall n :: n in s <==> n == s[0] || n in s[1..]
  {
    assert s == [s[0]] + s[1..];
  }

  /** The first write of a return: the node now leads to the whole chain. */
  lemma LinkInFront(l: Layout, m: seq<Cell>, n: nat, free: seq<nat>)
    requires Links(l, m, 0, free) && n !in free && l.Node(n) + POINTER_SIZE <= |m|
    ensures HoldsPointer(m, 0) && Links(l, Store(m, l.Node(n), Load(m, 0)), n, free)
  {
    assert l.Node(0) == 0;
    LoadStored(m, l.Node(n), Load(m, 0));
    if free != [] {
      assert free == [free[0]] + free[1..];
      StoreFrame(l, m, n, Load(m, 0), free[0], free[1..]);
    }
  }

  /** The second write: the chain now starts with the node. */
  lemma LinkHead(l: Layout, m: seq<Cell>, n: nat, free: seq<nat>)
    requires Links(l, m, n, free) && n > 0 && 0 !in free && POINTER_SIZE <= |m|
    ensures Links(l, Store(m, 0, At(l.Node(n))), 0, [n] + free)
  {
    assert l.Node(0) == 0;
    StoreFrame(l, m, 0, At(l.Node(n)), n, free);
    LoadStored(m, 0, At(l.Node(n)));
    assert ([n] + free)[1..] == free;
  }

  /** Returning a block puts its node in front of the chain. */
  lemma ReturnKeeps(l: Layout, h: Allocator, n: nat)
    requires Inv(l, h) && n in h.out
    ensures l.Item(n) <= |h.mem| && HoldsPointer(h.mem, 0)
    ensures Inv(l, Allocator(ReturnBlock(h.mem, l.Item(n)), [n] + h.free, h.out - {n}))
  {
    NodeInside(l, h, n);
    ReturnLinks(l, h.mem, n, h.free);
    ReturnedInv(l, h, n, ReturnBlock(h.mem, l.Item(n)));
  }

  lemma ReturnLinks(l: Layout, m: seq<Cell>, n: nat, free: seq<nat>)
    requires Links(l, m, 0, free) && n > 0 && n !in free && 0 !in free && l.Item(n) <= |m|
    ensures HoldsPointer(m, 0)
    ensures |ReturnBlock(m, l.Item(n))| == |m| && Links(l, ReturnBlock(m, l.Item(n)), 0, [n] + free)
  {
    LinkInFront(l, m, n, free);
    LinkHead(l, Store(m, l.Node(n), Load(m, 0)), n, free);
  }

  lemma ReturnedInv(l: Layout, h: Allocator, n: nat, mem: seq<Cell>)
    requires Inv(l, h) && n in h.out && |mem| == |h.mem| && Links(l, mem, 0, [n] + h.free)
    ensures Inv(l, Allocator(mem, [n] + h.free, h.out - {n}))
  {
    var free := [n] + h.free;
    assert forall x :: x in free <==> x == n || x in h.free;
  }

  /** The node of the block just returned is the next one. */
  lemma ReturnedIsNext(l: Layout, h: Allocator, n: nat)
    requires Inv(l, h) && n in h.out
    ensures var m := Step(l, h, Return(n)).mem; HoldsPointer(m, 0) && Load(m, 0) == At(l.Node(n))
  {
    ReturnKeeps(l, h, n);
    assert l.Node(0) == 0;
  }

  /** A user that stays within its block cannot break the chain. */
  lemma WriteKeeps(l: Layout, h: Allocator, n: nat, offset: nat, cell: Cell)
    requires Inv(l, h) && n in h.out && offset < l.itemsize
    ensures l.Item(n) + offset < |h.mem|
    ensures Inv(l, h.(mem := h.mem[l.Item(n) + offset := cell]))
  {
    NodeInside(l, h, n);
    var mem := h.mem[l.Item(n) + offset := cell];
    forall x | (x == 0 || x in h.free) && HoldsPointer(h.mem, l.Node(x))
      ensures HoldsPointer(mem, l.Node(x)) && Load(mem, l.Node(x)) == Load(h.mem, l.Node(x))
    {
      l.ItemsDisjoint(n, x);
      SameCells(h.mem, mem, l.Node(x));
    }
    LinksFrame(l, h.mem, mem, 0, h.free);
  }

  lemma SameCells(m: seq<Cell>, m': seq<Cell>, a: nat)
    requires HoldsPointer(m, a) && |m'| == |m|
    requires forall i :: a <= i < a + POINTER_SIZE ==> m'[i] == m[i]
    ensures HoldsPointer(m', a) && Load(m', a) == Load(m, a)
  {
    forall k | 0 <= k < POINTER_SIZE
      ensures m'[a + k] == Fragment(m'[a].target, k)
    {
      assert m[a + k] == Fragment(m[a].target, k);
    }
  }

  /** The memory after the first `n` steps of the loop that links every node to the one behind it. */
  function Linked(l: Layout, n: nat): (m: seq<Cell>)
    requires n <= l.num
    ensures |m| == l.BufferSize()
  {
    if n == 0 then seq(l.BufferSize(), i => Data(0))
    else
      l.Inside(n - 1);
      Store(Linked(l, n - 1), l.Node(n - 1), At(l.Node(n)))
  }

  /** The initial memory: the last link is overwritten to end the chain. */
  function InitialMemory(l: Layout): seq<Cell>
    requires l.num > 0
  {
    l.Inside(l.num - 1);
    Store(Linked(l, l.num), l.Node(l.num - 1), Null)
  }

  function Count(from: nat, to: nat): seq<nat>
    requires from <= to
  {
    seq(to - from, i requires 0 <= i < to - from => from + i)
  }

  /** The links are all that is written to the cleared buffer. */
  lemma {:induction false} LinkedCleared(l: Layout, n: nat, i: nat, o: nat)
    requires n <= l.num && i < l.num && o < l.itemsize
    ensures l.Item(i) + o < l.BufferSize() && Linked(l, n)[l.Item(i) + o] == Data(0)
  {
    l.Inside(i);
    if n > 0 {
      LinkedCleared(l, n - 1, i, o);
      l.Inside(n - 1);
      l.ItemsDisjoint(i, n - 1);
    }
  }

  /** Every byte of every block of a fresh allocator is zero. */
  lemma InitialCleared(l: Layout, i: nat, o: nat)
    requires i < l.num && o < l.itemsize
    ensures l.Item(i) + o < l.BufferSize() && |Initial(l).mem| == l.BufferSize()
    ensures Initial(l).mem[l.Item(i) + o] == Data(0)
  {
    LinkedCleared(l, l.num, i, o);
    l.Inside(l.num - 1);
    l.ItemsDisjoint(i, l.num - 1);
  }

  lemma {:induction false} LinkedAt(l: Layout, n: nat, i: nat)
    requires i < n <= l.num
    ensures HoldsPointer(Linked(l, n), l.Node(i)) && Load(Linked(l, n), l.Node(i)) == At(l.Node(i + 1))
    decreases n
  {
    var before := Linked(l, n - 1);
    l.Inside(n - 1);
    if i == n - 1 {
      LoadStored(before, l.Node(i), At(l.Node(n)));
    } else {
      LinkedAt(l, n - 1, i);
      l.ItemsDisjoint(n - 1, i);
      LoadElsewhere(before, l.Node(n - 1), At(l.Node(n)), l.Node(i));
    }
  }

  /** Every node points to the next one and the last one to nothing. */
  predicate InAddressOrder(l: Layout, m: seq<Cell>) {
    forall i :: 0 <= i < l.num ==>
      && HoldsPointer(m, l.Node(i))
      && Load(m, l.Node(i)) == if i + 1 < l.num then At(l.Node(i + 1)) else Null
  }

  lemma EndOfChain(l: Layout, m: seq<Cell>)
    requires l.num > 0 && |m| == l.BufferSize()
    requires forall i :: 0 <= i < l.num ==> HoldsPointer(m, l.Node(i)) && Load(m, l.Node(i)) == At(l.Node(i + 1))
    ensures l.Node(l.num - 1) + POINTER_SIZE <= |m| && InAddressOrder(l, Store(m, l.Node(l.num - 1), Null))
  {
    var last := l.num - 1;
    l.Inside(last);
    var m' := Store(m, l.Node(last), Null);
    LoadStored(m, l.Node(last), Null);
    forall i | 0 <= i < last
      ensures HoldsPointer(m', l.Node(i)) && Load(m', l.Node(i)) == At(l.Node(i + 1))
    {
      l.ItemsDisjoint(last, i);
      LoadElsewhere(m, l.Node(last), Null, l.Node(i));
    }
  }

  lemma InitialOrder(l: Layout)
    requires l.num > 0
    ensures InAddressOrder(l, InitialMemory(l))
  {
    forall i | 0 <= i < l.num
      ensures HoldsPointer(Linked(l, l.num), l.Node(i)) && Load(Linked(l, l.num), l.Node(i)) == At(l.Node(i + 1))
    {
      LinkedAt(l, l.num, i);
    }
    EndOfChain(l, Linked(l, l.num));
  }

  /** From node `i` on such a chain visits the nodes behind it in address order. */
  lemma {:induction false} OrderedLinks(l: Layout, m: seq<Cell>, i: nat)
    requires i < l.num && InAddressOrder(l, m)
    ensures Links(l, m, i, Count(i + 1, l.num))
    decreases l.num - i
  {
    assert HoldsPointer(m, l.Node(i)) && Load(m, l.Node(i)) == if i + 1 < l.num then At(l.Node(i + 1)) else Null;
    if i + 1 == l.num {
      assert Count(i + 1, l.num) == [];
    } else {
      assert Count(i + 1, l.num) != [] && Count(i + 1, l.num)[0] == i + 1;
      OrderedLinks(l, m, i + 1);
      assert Count(i + 1, l.num)[1..] == Count(i + 2, l.num);
    }
  }

  /** The allocator after initialisation. */
  function Initial(l: Layout): (h: Allocator)
    requires l.num > 0
    ensures Inv(l, h)
  {
    InitialInv(l);
    Allocator(InitialMemory(l), Count(1, l.num), {})
  }

  lemma InitialInv(l: Layout)
    requires l.num > 0
    ensures Inv(l, Allocator(InitialMemory(l), Count(1, l.num), {}))
  {
    InitialOrder(l);
    OrderedLinks(l, InitialMemory(l), 0);
    var free := Count(1, l.num);
    forall n | 0 < n < l.num
      ensures n in free
    {
      assert free[n - 1] == n;
    }
  }
}
