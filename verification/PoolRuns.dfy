/** The pool allocator over whole sequences of operations. */
module PoolRuns {
  import opened PoolMemory
  import opened PoolChain

  /** Only blocks that are out are returned or written to. */
  predicate LegalRun(l: Layout, h: Allocator, ops: seq<Operation>)
    requires Inv(l, h)
    decreases |ops|
  {
    ops == [] || (Legal(l, h, ops[0]) && LegalRun(l, Step(l, h, ops[0]), ops[1..]))
  }

  function Exec(l: Layout, h: Allocator, ops: seq<Operation>): (h': Allocator)
    requires Inv(l, h) && LegalRun(l, h, ops)
    ensures Inv(l, h')
    decreases |ops|
  {
    if ops == [] then h else Exec(l, Step(l, h, ops[0]), ops[1..])
  }

  /** Safety over every sequence of operations: following the links from the sentinel comes to an end,
      in one way only, and visits each of the nodes 1 .. num - 1 that is not out exactly once; the
      sentinel is never out. */
  lemma ChainIsFreeNodes(l: Layout, ops: seq<Operation>, chain: seq<nat>)
    requires l.num > 0 && LegalRun(l, Initial(l), ops)
    ensures var h := Exec(l, Initial(l), ops);
            && (Links(l, h.mem, 0, chain) <==> chain == h.free)
            && NoDuplicates(h.free)
            && (forall n :: n in h.free <==> 0 < n < l.num && n !in h.out)
            && (forall n :: n in h.out ==> 0 < n < l.num)
            && |h.free| + |h.out| == l.num - 1
  {
    var h := Exec(l, Initial(l), ops);
    if Links(l, h.mem, 0, chain) {
      LinksUnique(l, h.mem, 0, chain, h.free);
    }
  }

  /** An obtain hands out a node that was not out, and fails only when all of them are. */
  lemma ObtainIsNew(l: Layout, h: Allocator)
    requires Inv(l, h)
    ensures HoldsPointer(h.mem, 0) && (Load(h.mem, 0).At? ==> HoldsPointer(h.mem, Load(h.mem, 0).offset))
    ensures ObtainBlock(h.mem).1 == Null <==> |h.out| == l.num - 1
    ensures ObtainBlock(h.mem).1 != Null ==>
              exists n :: 0 < n < l.num && n !in h.out && ObtainBlock(h.mem).1 == At(l.Item(n))
                          && Step(l, h, Obtain).out == h.out + {n}
  {
    ObtainKeeps(l, h);
    if h.free != [] {
      assert h.free[0] in h.free;
    }
  }

  /** The operation is not the owner's own use of block `n`. */
  predicate LeavesAlone(op: Operation, n: nat) {
    match op
    case Obtain => true
    case Return(m) => m != n
    case Write(m, _, _) => m != n
  }

  ghost predicate SameData(l: Layout, m: seq<Cell>, m': seq<Cell>, n: nat) {
    && |m'| == |m| && l.Item(n) + l.itemsize <= |m|
    && forall i :: l.Item(n) <= i < l.Item(n) + l.itemsize ==> m'[i] == m[i]
  }

  lemma StoreSameData(l: Layout, m: seq<Cell>, x: nat, p: Pointer, n: nat)
    requires l.Node(x) + POINTER_SIZE <= |m| && l.Item(n) + l.itemsize <= |m|
    ensures SameData(l, m, Store(m, l.Node(x), p), n)
  {
    l.ItemsDisjoint(n, x);
  }

  lemma ReturnFrame(l: Layout, h: Allocator, x: nat, n: nat)
    requires Inv(l, h) && x in h.out && n < l.num
    ensures l.Item(x) <= |h.mem| && HoldsPointer(h.mem, 0)
    ensures SameData(l, h.mem, ReturnBlock(h.mem, l.Item(x)), n)
  {
    ReturnKeeps(l, h, x);
    NodeInside(l, h, n);
    assert l.Node(0) == 0;
    StoreSameData(l, h.mem, x, Load(h.mem, 0), n);
    StoreSameData(l, Store(h.mem, l.Node(x), Load(h.mem, 0)), 0, At(l.Node(x)), n);
  }

  /** All that a return does. */
  lemma ReturnEffect(l: Layout, h: Allocator, n: nat)
    requires Inv(l, h) && n in h.out
    ensures l.Node(n) + POINTER_SIZE == l.Item(n) <= |h.mem| && HoldsPointer(h.mem, 0)
    ensures var m := Store(Store(h.mem, l.Node(n), Load(h.mem, 0)), 0, At(l.Node(n)));
            && Step(l, h, Return(n)) == Allocator(m, [n] + h.free, h.out - {n})
            && HoldsPointer(m, 0) && Load(m, 0) == At(l.Node(n)) && SameData(l, h.mem, m, n)
  {
    ReturnedIsNext(l, h, n);
    ReturnFrame(l, h, n, n);
  }

  /** No operation changes a block, whether it is out or not, except a write to that very block. In
      particular returning a block does not clear it. */
  lemma StepFrame(l: Layout, h: Allocator, op: Operation, n: nat)
    requires Inv(l, h) && Legal(l, h, op) && n < l.num
    requires op.Write? ==> op.node != n
    ensures SameData(l, h.mem, Step(l, h, op).mem, n)
  {
    NodeInside(l, h, n);
    assert l.Node(0) == 0;
    match op {
      case Obtain =>
        ObtainKeeps(l, h);
        if h.free != [] {
          StoreSameData(l, h.mem, 0, Load(h.mem, l.Node(h.free[0])), n);
        }
      case Return(x) =>
        ReturnFrame(l, h, x, n);
      case Write(x, offset, cell) =>
        WriteKeeps(l, h, x, offset, cell);
        l.ItemsDisjoint(n, x);
    }
  }

  /** And such a write changes the one cell. */
  lemma WriteFrame(l: Layout, h: Allocator, n: nat, offset: nat, cell: Cell, a: nat)
    requires Inv(l, h) && n in h.out && offset < l.itemsize && a < |h.mem|
    ensures |Step(l, h, Write(n, offset, cell)).mem| == |h.mem|
    ensures Step(l, h, Write(n, offset, cell)).mem[a] == if a == l.Item(n) + offset then cell else h.mem[a]
  {
    WriteKeeps(l, h, n, offset, cell);
  }

  /** A block that is out keeps its contents, and stays out, while others use the allocator. */
  lemma {:induction false} RunFrame(l: Layout, h: Allocator, ops: seq<Operation>, n: nat)
    requires Inv(l, h) && LegalRun(l, h, ops) && n in h.out
    requires forall i :: 0 <= i < |ops| ==> LeavesAlone(ops[i], n)
    ensures n in Exec(l, h, ops).out && SameData(l, h.mem, Exec(l, h, ops).mem, n)
    decreases |ops|
  {
    NodeInside(l, h, n);
    if ops != [] {
      StepFrame(l, h, ops[0], n);
      ObtainKeeps(l, h);
      RunFrame(l, Step(l, h, ops[0]), ops[1..], n);
    }
  }

  /** One obtain leads from one state to the other. */
  ghost predicate Obtained(l: Layout, h: Allocator, after: Allocator) {
    Inv(l, h) && after == Step(l, h, Obtain)
  }

  /** States that are led to one another by obtains. */
  ghost predicate Obtains(l: Layout, hs: seq<Allocator>) {
    |hs| > 0 && Inv(l, hs[0]) && forall i :: 0 <= i < |hs| - 1 ==> Obtained(l, hs[i], hs[i + 1])
  }

  /** One obtain, in terms of the chain. */
  lemma FirstBlock(l: Layout, h: Allocator)
    requires Inv(l, h)
    ensures HoldsPointer(h.mem, 0) && (Load(h.mem, 0).At? ==> HoldsPointer(h.mem, Load(h.mem, 0).offset))
    ensures ObtainBlock(h.mem).1 == if h.free == [] then Null else At(l.Item(h.free[0]))
  {
    ObtainKeeps(l, h);
  }

  lemma ObtainedFree(l: Layout, h: Allocator, after: Allocator)
    requires Obtained(l, h, after)
    ensures Inv(l, after)
    ensures h.free != [] ==> after.free == h.free[1..]
  {
    ObtainKeeps(l, h);
  }

  /** `i` obtains take the first `i` nodes of the chain. */
  lemma {:induction false} ObtainsTake(l: Layout, hs: seq<Allocator>, i: nat)
    requires Obtains(l, hs) && i < |hs| && i <= |hs[0].free|
    ensures Inv(l, hs[i]) && hs[i].free == hs[0].free[i..]
  {
    if i > 0 {
      ObtainsTake(l, hs, i - 1);
      assert Obtained(l, hs[i - 1], hs[i - 1 + 1]);
      ObtainedFree(l, hs[i - 1], hs[i]);
      DropOne(hs[0].free, hs[i - 1].free, i - 1);
    }
  }

  lemma DropOne(s: seq<nat>, rest: seq<nat>, k: nat)
    requires k < |s| && rest == s[k..]
    ensures rest != [] && rest[0] == s[k] && rest[1..] == s[k + 1..]
  {
  }

  /** A fresh allocator hands out items 1, 2, ..., num - 1 and then nothing. */
  lemma InitialOrderOfBlocks(l: Layout, hs: seq<Allocator>, k: nat)
    requires l.num > 0 && Obtains(l, hs) && hs[0] == Initial(l) && k < |hs| && k < l.num
    ensures var m := hs[k].mem;
            && HoldsPointer(m, 0) && (Load(m, 0).At? ==> HoldsPointer(m, Load(m, 0).offset))
            && ObtainBlock(m).1 == if k + 1 < l.num then At(l.ItemByIndex(k + 1)) else Null
  {
    ObtainsTake(l, hs, k);
    FirstBlock(l, hs[k]);
    l.NodeIs(k + 1);
    assert hs[k].free == Count(1, l.num)[k..];
  }

  /** Returning the block just obtained restores the allocator completely. */
  lemma ReturnUndoesObtain(l: Layout, h: Allocator)
    requires Inv(l, h) && h.free != []
    ensures h.free[0] in Step(l, h, Obtain).out
    ensures Step(l, Step(l, h, Obtain), Return(h.free[0])) == h
  {
    var n := h.free[0];
    ObtainKeeps(l, h);
    assert l.Node(0) == 0;
    l.ItemsDisjoint(n, 0);
    assert n in h.free && n !in h.out;
    UndoStores(h.mem, l.Node(n));
    assert [n] + h.free[1..] == h.free;
    assert h.out + {n} - {n} == h.out;
  }

  /** The three stores of an obtain and a return put back what was there. */
  lemma UndoStores(m: seq<Cell>, node: nat)
    requires HoldsPointer(m, 0) && Load(m, 0) == At(node) && HoldsPointer(m, node) && POINTER_SIZE <= node
    ensures var taken := Store(m, 0, Load(m, node));
            HoldsPointer(taken, 0) && Store(Store(taken, node, Load(taken, 0)), 0, At(node)) == m
  {
    var taken := Store(m, 0, Load(m, node));
    LoadStored(m, 0, Load(m, node));
    StoreTwice(m, 0, Load(m, node), node, Load(m, node), At(node));
    StoreLoaded(m, 0);
    StoreLoaded(m, node);
  }

  /** The blocks `blocks` returned, the last one first. */
  ghost predicate ReturnsTo(l: Layout, h: Allocator, blocks: seq<nat>, end: Allocator)
    requires Inv(l, h)
    decreases |blocks|
  {
    if blocks == [] then h == end
    else
      var last := blocks[|blocks| - 1];
      last in h.out && ReturnsTo(l, Step(l, h, Return(last)), blocks[..|blocks| - 1], end)
  }

  /** Returning block `n` leads from one state to the other. */
  ghost predicate Undoes(l: Layout, h: Allocator, n: nat, before: Allocator) {
    Inv(l, h) && n in h.out && Step(l, h, Return(n)) == before
  }

  lemma ReturnLast(l: Layout, h: Allocator, before: Allocator, blocks: seq<nat>, end: Allocator)
    requires blocks != [] && Undoes(l, h, blocks[|blocks| - 1], before)
    requires ReturnsTo(l, before, blocks[..|blocks| - 1], end)
    ensures ReturnsTo(l, h, blocks, end)
  {
  }

  /** States that are led to one another by returns. */
  lemma {:induction false} ReturnChain(l: Layout, hs: seq<Allocator>, blocks: seq<nat>)
    requires |hs| == |blocks| + 1 && Inv(l, hs[0])
    requires forall i :: 0 <= i < |blocks| ==> Undoes(l, hs[i + 1], blocks[i], hs[i])
    ensures Inv(l, hs[|blocks|]) && ReturnsTo(l, hs[|blocks|], blocks, hs[0])
    decreases |blocks|
  {
    if blocks != [] {
      var k := |blocks| - 1;
      ReturnChain(l, hs[..k + 1], blocks[..k]);
      assert Undoes(l, hs[k + 1], blocks[k], hs[k]);
      ReturnLast(l, hs[k + 1], hs[k], blocks, hs[0]);
    }
  }

  lemma UndoesObtain(l: Layout, h: Allocator, after: Allocator)
    requires Obtained(l, h, after) && h.free != []
    ensures Undoes(l, after, h.free[0], h)
  {
    ReturnUndoesObtain(l, h);
  }

  /** Round trip: any number of blocks obtained and returned in the reverse order leave the memory, the
      chain and the set of outstanding blocks exactly as they were. */
  lemma RoundTrip(l: Layout, hs: seq<Allocator>, k: nat)
    requires Obtains(l, hs) && |hs| == k + 1 && k <= |hs[0].free|
    ensures Inv(l, hs[k]) && ReturnsTo(l, hs[k], hs[0].free[..k], hs[0])
  {
    forall i | 0 <= i < k
      ensures Undoes(l, hs[i + 1], hs[0].free[..k][i], hs[i])
    {
      ObtainsTake(l, hs, i);
      DropOne(hs[0].free, hs[i].free, i);
      UndoesObtain(l, hs[i], hs[i + 1]);
    }
    ReturnChain(l, hs, hs[0].free[..k]);
  }

  /** Last in, first out: the block returned last is the next one handed out. */
  lemma ObtainAfterReturn(l: Layout, h: Allocator, n: nat)
    requires Inv(l, h) && n in h.out
    ensures var h' := Step(l, h, Return(n));
            && HoldsPointer(h'.mem, 0) && (Load(h'.mem, 0).At? ==> HoldsPointer(h'.mem, Load(h'.mem, 0).offset))
            && ObtainBlock(h'.mem).1 == At(l.Item(n))
            && Step(l, h', Obtain).out == h.out && Step(l, h', Obtain).free == h.free
  {
    var h' := Step(l, h, Return(n));
    ObtainKeeps(l, h');
    assert h'.free[1..] == h.free;
    assert h.out - {n} + {n} == h.out;
  }
}
