/** The kernel's one heap (src/memory/heap/kheap.c): the table read as a pool of addresses. */
module KernelHeap {
  import opened Words
  import opened HeapTable
  import opened Heap

  const HEAP_ADDRESS: word := 0x0100_0000
  const HEAP_BLOCKS: nat := 25600

  ghost predicate Sound(t: Table) {
    |t| == HEAP_BLOCKS && WellFormed(t)
  }

  predicate InHeap(a: int) {
    HEAP_ADDRESS <= a < HEAP_ADDRESS + HEAP_BLOCKS * BLOCK_SIZE && Aligned(a)
  }

  function BlockOf(a: word): nat
    requires InHeap(a)
  {
    (a - HEAP_ADDRESS) / BLOCK_SIZE
  }

  /** A partition of blocks as a pool of addresses: first byte -> number of blocks. */
  ghost function ByAddress(a: Allocations): map<word, nat> {
    map x: word | InHeap(x) && BlockOf(x) in a :: a[BlockOf(x)]
  }

  /** The live allocations that the table's bytes describe. */
  ghost function Pool(t: Table): map<word, nat> {
    ByAddress(Decode(t))
  }

  lemma PoolOfRecorded(t: Table, a: Allocations)
    requires |t| == HEAP_BLOCKS && Records(t, a)
    ensures Sound(t) && Pool(t) == ByAddress(a)
  {
    DecodeIsUnique(t, a);
  }

  lemma EmptyPool(t: Table)
    requires |t| == HEAP_BLOCKS && Records(t, map[])
    ensures Sound(t) && Pool(t) == map[]
  {
    PoolOfRecorded(t, map[]);
    assert ByAddress(map[]) == map[];
  }

  function Kmalloc(t: Table, n: nat): Table
    requires n >= 1 && !Overruns(t, n)
  {
    MallocTable(t, n)
  }

  function KmallocAddress(t: Table, n: nat): word {
    MallocAddress(HEAP_ADDRESS, t, n)
  }

  lemma AddressOfBlock(b: nat)
    requires b < HEAP_BLOCKS
    ensures var p := BlockToAddress(HEAP_ADDRESS, b); InHeap(p) && BlockOf(p) == b
  {
  }

  lemma KmallocAddsTo(t: Table, a: Allocations, n: nat)
    requires |t| == HEAP_BLOCKS && Records(t, a) && n >= 1 && !Overruns(t, n) && FirstFit(t, n) >= 0
    ensures var p := KmallocAddress(t, n);
            InHeap(p) && p !in ByAddress(a) && Records(Kmalloc(t, n), a[BlockOf(p) := n])
  {
    SafeScan(t, n);
    var f := FirstFit(t, n);
    AddressOfBlock(f);
    MarkTakenRecords(t, a, f, n);
  }

  lemma AddressAdded(a: Allocations, p: word, n: nat)
    requires InHeap(p)
    ensures ByAddress(a[BlockOf(p) := n]) == ByAddress(a)[p := n]
  {
    BlocksApart(p);
    hide BlockOf, InHeap;
  }

  lemma BlocksApart(p: word)
    requires InHeap(p)
    ensures forall x: word :: InHeap(x) && BlockOf(x) == BlockOf(p) ==> x == p
  {
  }

  lemma AddressRemoved(a: Allocations, p: word)
    requires InHeap(p)
    ensures ByAddress(a - {BlockOf(p)}) == ByAddress(a) - {p}
  {
    BlocksApart(p);
    hide BlockOf, InHeap;
  }

  /** Every allocation is a new page-aligned entry in the pool; failing changes nothing. */
  lemma KmallocAdds(t: Table, n: nat)
    requires Sound(t) && n >= 1 && !Overruns(t, n)
    ensures Sound(Kmalloc(t, n))
    ensures var p := KmallocAddress(t, n);
            if p == 0 then Kmalloc(t, n) == t && !Fits(t, n)
            else InHeap(p) && p !in Pool(t) && Pool(Kmalloc(t, n)) == Pool(t)[p := n]
  {
    SafeScan(t, n);
    if FirstFit(t, n) >= 0 {
      var a, p := Decode(t), KmallocAddress(t, n);
      KmallocAddsTo(t, a, n);
      AddressAdded(a, p, n);
      PoolOfRecorded(Kmalloc(t, n), a[BlockOf(p) := n]);
    }
  }

  function Kfree(t: Table, p: word): Table
    requires AddressToBlock(HEAP_ADDRESS, p) >= 0
  {
    FreeTable(HEAP_ADDRESS, t, p)
  }

  lemma HeapAddressToBlock(p: word)
    requires InHeap(p)
    ensures AddressToBlock(HEAP_ADDRESS, p) == BlockOf(p)
  {
  }

  /** Freeing a live address removes exactly that entry from the pool. */
  lemma KfreeRemoves(t: Table, p: word)
    requires Sound(t) && p in Pool(t)
    ensures AddressToBlock(HEAP_ADDRESS, p) >= 0
    ensures Sound(Kfree(t, p)) && Pool(Kfree(t, p)) == Pool(t) - {p}
  {
    var a := Decode(t);
    HeapAddressToBlock(p);
    FreeDropsAllocation(t, a, BlockOf(p));
    AddressRemoved(a, p);
    PoolOfRecorded(Kfree(t, p), a - {BlockOf(p)});
  }

  /** `a` lies in the allocation that starts at `p` in pool `m`. */
  ghost predicate Spans(m: map<word, nat>, p: word, a: int) {
    p in m && p <= a < p + m[p] * BLOCK_SIZE
  }

  lemma AllocationSpansAreDisjoint(t: Table, m: Allocations, p: word, q: word)
    requires |t| == HEAP_BLOCKS && Records(t, m)
    requires InHeap(p) && InHeap(q) && BlockOf(p) in m && BlockOf(q) in m && p != q
    ensures p + m[BlockOf(p)] * BLOCK_SIZE <= q || q + m[BlockOf(q)] * BLOCK_SIZE <= p
  {
    AllocationsAreDisjoint(t, m, BlockOf(p), BlockOf(q));
  }

  /** Different live allocations share no byte ... */
  lemma SpansAreDisjoint(t: Table, p: word, q: word, a: int)
    requires Sound(t) && Spans(Pool(t), p, a) && Spans(Pool(t), q, a)
    ensures p == q
  {
    if p != q {
      AllocationSpansAreDisjoint(t, Decode(t), p, q);
    }
  }

  lemma AllocationIsInHeap(t: Table, m: Allocations, p: word)
    requires |t| == HEAP_BLOCKS && Records(t, m) && p in ByAddress(m)
    ensures InHeap(p) && ByAddress(m)[p] >= 1
    ensures p + ByAddress(m)[p] * BLOCK_SIZE <= HEAP_ADDRESS + HEAP_BLOCKS * BLOCK_SIZE
  {
  }

  /** ... and all lie inside the heap. */
  lemma SpansAreInHeap(t: Table, p: word)
    requires Sound(t) && p in Pool(t)
    ensures InHeap(p) && Pool(t)[p] >= 1
    ensures p + Pool(t)[p] * BLOCK_SIZE <= HEAP_ADDRESS + HEAP_BLOCKS * BLOCK_SIZE
  {
    AllocationIsInHeap(t, Decode(t), p);
  }

  lemma SameAddresses(a: Allocations, b: Allocations)
    requires forall s :: s in a ==> s < HEAP_BLOCKS
    requires forall s :: s in b ==> s < HEAP_BLOCKS
    requires ByAddress(a) == ByAddress(b)
    ensures a == b
  {
    forall s: nat | s < HEAP_BLOCKS
      ensures s in a <==> s in b
      ensures s in a && s in b ==> a[s] == b[s]
    {
      var x: word := HEAP_ADDRESS + s * BLOCK_SIZE;
      assert InHeap(x) && BlockOf(x) == s;
      assert x in ByAddress(a) <==> s in a;
      assert x in ByAddress(b) <==> s in b;
    }
  }

  /** Equal pools mean equal tables, byte for byte. */
  lemma SamePoolSameTable(t: Table, u: Table)
    requires Sound(t) && Sound(u) && Pool(t) == Pool(u)
    ensures t == u
  {
    SameAddresses(Decode(t), Decode(u));
    SameAllocationsSameBytes(t, u, Decode(t));
  }

  // ---------- how many blocks are left ----------

  function FreeCount(t: Table): nat {
    |t| - TakenCount(t)
  }

  lemma {:induction false} AllTaken(t: Table)
    requires forall i :: 0 <= i < |t| ==> !IsFree(t[i])
    ensures TakenCount(t) == |t|
  {
    if t != [] {
      AllTaken(t[1..]);
    }
  }

  /** With a block left, a one-block request succeeds and uses up exactly one. */
  lemma SingleBlockAlloc(t: Table)
    requires FreeCount(t) >= 1
    ensures !Overruns(t, 1) && FirstFit(t, 1) >= 0
    ensures FreeCount(MallocTable(t, 1)) == FreeCount(t) - 1
  {
    SingleBlockIsSafe(t);
    if FirstFit(t, 1) < 0 {
      AllTaken(t);
    } else {
      var f := FirstFit(t, 1);
      CountFilled(t, MarkTaken(t, f, 1), f, 1);
    }
  }

  /** The same on the pool of addresses: one new page, aligned and not live before. */
  lemma SingleBlockAdds(t: Table)
    requires Sound(t) && FreeCount(t) >= 1
    ensures !Overruns(t, 1)
    ensures Sound(Kmalloc(t, 1)) && FreeCount(Kmalloc(t, 1)) == FreeCount(t) - 1
    ensures var p := KmallocAddress(t, 1);
            InHeap(p) && p !in Pool(t) && Pool(Kmalloc(t, 1)) == Pool(t)[p := 1]
  {
    SingleBlockAlloc(t);
    SafeScan(t, 1);
    AddressOfBlock(FirstFit(t, 1));
    KmallocAdds(t, 1);
  }
}
