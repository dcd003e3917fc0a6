/** The pool allocator itself: an object that owns a buffer and changes the links in it in place. */
module PoolAllocator {
  import opened PoolMemory
  import opened PoolChain
  import PoolRuns

  class SchPool {
    const layout: Layout
    const pool: array<Cell>

    /** The nodes on the free chain, in its order, and those handed out. */
    ghost var free: seq<nat>
    ghost var out: set<nat>

    ghost function State(): Allocator
      reads this, pool
    {
      Allocator(pool[..], free, out)
    }

    ghost predicate Valid()
      reads this, pool
    {
      Inv(layout, State())
    }

    /** A cleared buffer whose nodes 1, 2, ..., num - 1 are all free, in this order. */
    constructor (num: nat, itemsize: nat)
      requires num > 0
      ensures fresh(pool) && layout == Layout(num, itemsize)
      ensures State() == Initial(layout) && Valid()
      ensures pool.Length == num * (itemsize + 8 + POINTER_SIZE)
    {
      var l := Layout(num, itemsize);
      layout := l;
      l.AllocatedIs(num);
      pool := new Cell[num * (itemsize + DESCRIPTOR_SIZE)](i => Data(0));
      free, out := Count(1, num), {};
      new;
      assert pool[..] == Linked(l, 0);
      LinkNodes();
      assert State() == Initial(l);
    }

    /** Link every node to the next and then end the chain at the last one. Without any node this would
        write in front of the buffer, so the caller asks for at least one. */
    method LinkNodes()
      requires layout.num > 0 && pool[..] == Linked(layout, 0)
      modifies pool
      ensures pool[..] == InitialMemory(layout)
    {
      var size := POINTER_SIZE + layout.itemsize;
      var tmp := 0;
      for i := 0 to layout.num
        invariant tmp == layout.Node(i) && pool[..] == Linked(layout, i)
      {
        layout.Inside(i);
        StorePointer(tmp, At(tmp + size));
        tmp := tmp + size;
      }
      layout.Inside(layout.num - 1);
      tmp := tmp - size;
      StorePointer(tmp, Null);
    }

    /** An assignment to the link of the node at address `a`. */
    method StorePointer(a: nat, p: Pointer)
      requires a + POINTER_SIZE <= pool.Length
      modifies pool
      ensures pool[..] == Store(old(pool[..]), a, p)
    {
      forall i | a <= i < a + POINTER_SIZE {
        pool[i] := Fragment(p, i - a);
      }
    }

    method LoadPointer(a: nat) returns (p: Pointer)
      requires HoldsPointer(pool[..], a)
      ensures p == Load(pool[..], a)
    {
      p := pool[a].target;
    }

    /** The first free block, which is not out yet, or null when all blocks are out. */
    method SchPoolObtain() returns (block: Pointer)
      requires Valid()
      modifies this, pool
      ensures Valid() && State() == Step(layout, old(State()), Obtain)
      ensures block == Null <==> |old(out)| == layout.num - 1
      ensures block == Null ==> out == old(out)
      ensures block != Null ==>
                exists n :: 0 < n < layout.num && n !in old(out) && out == old(out) + {n} && block == At(layout.Item(n))
      ensures pool[POINTER_SIZE..] == old(pool[POINTER_SIZE..])
    {
      ghost var before := State();
      PoolRuns.ObtainIsNew(layout, before);
      ObtainKeeps(layout, before);
      assert layout.Node(0) == 0;
      assert pool.Length >= POINTER_SIZE;
      var head := LoadPointer(0);
      if head == Null {
        return Null;
      }
      var tmp := head.offset;
      var next := LoadPointer(tmp);
      StorePointer(0, next);
      out := out + {free[0]};
      free := free[1..];
      block := At(tmp + POINTER_SIZE);
    }

    /** Give back the block of node `n`: it is in front of the chain, so its node, which is the result, is
        the next one to be handed out; its contents are left as they are. */
    method SchPoolReturn(data: nat, ghost n: nat) returns (node: nat)
      requires Valid() && n in out && data == layout.Item(n)
      modifies this, pool
      ensures Valid() && State() == Step(layout, old(State()), Return(n))
      ensures node == layout.Node(n) && free == [n] + old(free) && out == old(out) - {n}
      ensures HoldsPointer(pool[..], 0) && Load(pool[..], 0) == At(node)
      ensures PoolRuns.SameData(layout, old(pool[..]), pool[..], n)
    {
      ghost var before := State();
      PoolRuns.ReturnEffect(layout, before, n);
      node := data - POINTER_SIZE;
      var head := LoadPointer(0);
      StorePointer(node, head);
      StorePointer(0, At(node));
      assert pool[..] == Store(Store(before.mem, node, head), 0, At(node));
      free := [n] + free;
      out := out - {n};
      assert State() == Step(layout, before, Return(n));
    }
  }
}
