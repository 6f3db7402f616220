/** What a process's page tables let it write, through malloc, free and loading. */
module ProcessPages {
  import opened Words
  import opened HeapTable
  import opened Heap
  import opened KernelHeap
  import opened PageTables
  import opened ProcessMemory

  /** Present, writeable and open to user mode. */
  predicate Writable(entry: word) {
    entry % 8 == 7
  }

  /** Page `q` holds part of record `i`. */
  ghost predicate InRecord(r: seq<Allocation>, i: int, q: int) {
    0 <= i < |r| && r[i].ptr != 0 && r[i].ptr <= q * PAGE_SIZE < r[i].ptr + r[i].size
  }

  /** Each record names a live allocation of its own, of the right number of blocks, or is all zeros. */
  ghost predicate RecordsValid(pool: map<word, nat>, r: seq<Allocation>) {
    && |r| == MAX_ALLOCATIONS
    && (forall i :: 0 <= i < |r| && r[i].ptr != 0 ==> r[i].ptr in pool && pool[r[i].ptr] == Blocks(r[i].size))
    && (forall i :: 0 <= i < |r| && r[i].ptr != 0 ==> 1 <= r[i].size <= 0xffff_e000)
    && (forall i, j :: 0 <= i < j < |r| && r[i].ptr != 0 ==> r[i].ptr != r[j].ptr)
    && (forall i :: 0 <= i < |r| && r[i].ptr == 0 ==> r[i].size == 0)
  }

  /** Every page of a record is mapped to itself, writeable. */
  ghost predicate RecordsMapped(space: seq<word>, r: seq<Allocation>)
    requires |space| == PAGES
  {
    forall i, q :: 0 <= q < PAGES && InRecord(r, i, q) ==> space[q] == q * PAGE_SIZE + USER_WRITE_FLAGS
  }

  /** Frame `f`, seen at page `q`, belongs to the image, the stack, or a record that covers `q` itself. */
  ghost predicate OwnFrame(pool: map<word, nat>, image: word, stack: word, r: seq<Allocation>, f: word, q: int) {
    Spans(pool, image, f) || Spans(pool, stack, f) || (f == q * PAGE_SIZE && exists i :: InRecord(r, i, q))
  }

  /** All that the page tables make writeable is the process's own. */
  ghost predicate PagesOwned(pool: map<word, nat>, space: seq<word>, image: word, stack: word, r: seq<Allocation>)
    requires |space| == PAGES
  {
    forall q :: 0 <= q < PAGES && Writable(space[q]) ==> OwnFrame(pool, image, stack, r, Mask(space[q]), q)
  }

  // ---------- identity mappings of heap blocks ----------

  lemma EndOfBlocks(ptr: word, size: word)
    requires InHeap(ptr) && 1 <= size <= 0xffff_e000
    requires ptr + Blocks(size) * BLOCK_SIZE <= HEAP_ADDRESS + HEAP_BLOCKS * BLOCK_SIZE
    ensures var end := AlignAddress(Wrap(ptr + size));
            Aligned(end) && end - PAGE_SIZE < ptr + size <= end <= ptr + Blocks(size) * BLOCK_SIZE
  {
    BlocksCover(size);
  }

  lemma IdentityRange(ptr: word, size: word, end: word, q: int)
    requires InHeap(ptr) && 0 <= q < PAGES && Aligned(end) && end - PAGE_SIZE < ptr + size <= end
    ensures var k := Ahead(ptr / PAGE_SIZE, q);
            && (ptr + k * PAGE_SIZE < end <==> ptr <= q * PAGE_SIZE < ptr + size)
            && (ptr <= q * PAGE_SIZE ==> ptr + k * PAGE_SIZE == q * PAGE_SIZE)
  {
  }

  ghost function Remapped(space: seq<word>, ptr: word, size: word, flags: Flags): (s: seq<word>)
    requires |space| == PAGES
    ensures |s| == PAGES
    ensures forall q :: 0 <= q < PAGES ==>
              s[q] == if ptr <= q * PAGE_SIZE < ptr + size then q * PAGE_SIZE + flags else space[q]
  {
    seq(PAGES, q requires 0 <= q < PAGES =>
      if ptr <= q * PAGE_SIZE < ptr + size then q * PAGE_SIZE + flags else space[q])
  }

  /** Mapping a heap allocation onto itself succeeds and sets exactly the entries of its pages. */
  lemma MapOntoItself(m: Frames, d: word, ptr: word, size: word, flags: Flags)
    requires Paged(m, d) && InHeap(ptr) && 1 <= size <= 0xffff_e000
    requires ptr + Blocks(size) * BLOCK_SIZE <= HEAP_ADDRESS + HEAP_BLOCKS * BLOCK_SIZE
    ensures var (n, res) := MapTo(m, d, ptr, ptr, AlignAddress(Wrap(ptr + size)), flags);
            res == 0 && SpaceOf(n, d) == Remapped(SpaceOf(m, d), ptr, size, flags)
  {
    hide MapTo, SpaceOf, Paged, Ahead, AlignAddress, Blocks;
    EndOfBlocks(ptr, size);
    var end := AlignAddress(Wrap(ptr + size));
    forall q | 0 <= q < PAGES
      ensures SpaceOf(MapTo(m, d, ptr, ptr, end, flags).0, d)[q]
           == if ptr <= q * PAGE_SIZE < ptr + size then q * PAGE_SIZE + flags else SpaceOf(m, d)[q]
    {
      MapToIsPointwise(m, d, ptr, ptr, end, flags, q);
      IdentityRange(ptr, size, end, q);
    }
    MapToIsPointwise(m, d, ptr, ptr, end, flags, 0);
  }

  // ---------- malloc ----------

  lemma RecordsAfterMalloc(pool: map<word, nat>, r: seq<Allocation>, k: int, ptr: word, size: word)
    requires RecordsValid(pool, r) && 0 <= k < |r| && r[k].ptr == 0
    requires ptr != 0 && ptr !in pool && 1 <= size <= 0xffff_e000
    ensures RecordsValid(pool[ptr := Blocks(size)], r[k := Allocation(ptr, size)])
  {
    hide Blocks;
  }

  lemma PagesAfterMalloc(pool: map<word, nat>, space: seq<word>, image: word, stack: word,
                         r: seq<Allocation>, k: int, ptr: word, size: word, n: nat)
    requires |space| == PAGES && PagesOwned(pool, space, image, stack, r) && RecordsMapped(space, r)
    requires 0 <= k < |r| && r[k].ptr == 0 && ptr != 0 && ptr !in pool
    ensures var s := r[k := Allocation(ptr, size)];
            var w := Remapped(space, ptr, size, USER_WRITE_FLAGS);
            PagesOwned(pool[ptr := n], w, image, stack, s) && RecordsMapped(w, s)
  {
    var s, w := r[k := Allocation(ptr, size)], Remapped(space, ptr, size, USER_WRITE_FLAGS);
    forall q | 0 <= q < PAGES && Writable(w[q])
      ensures OwnFrame(pool[ptr := n], image, stack, s, Mask(w[q]), q)
    {
      if ptr <= q * PAGE_SIZE < ptr + size {
        MaskDropsFlags(q * PAGE_SIZE, USER_WRITE_FLAGS);
        assert InRecord(s, k, q);
      } else {
        OwnFrameGrows(pool, image, stack, r, k, ptr, size, n, Mask(w[q]), q);
      }
    }
    forall i, q | 0 <= q < PAGES && InRecord(s, i, q)
      ensures w[q] == q * PAGE_SIZE + USER_WRITE_FLAGS
    {
      assert i != k ==> InRecord(r, i, q);
    }
  }

  lemma OwnFrameGrows(pool: map<word, nat>, image: word, stack: word, r: seq<Allocation>, k: int,
                      ptr: word, size: word, n: nat, f: word, q: int)
    requires OwnFrame(pool, image, stack, r, f, q) && 0 <= k < |r| && r[k].ptr == 0 && ptr !in pool
    ensures OwnFrame(pool[ptr := n], image, stack, r[k := Allocation(ptr, size)], f, q)
  {
    if i :| InRecord(r, i, q) {
      assert InRecord(r[k := Allocation(ptr, size)], i, q);
    }
  }

  // ---------- free ----------

  lemma RecordsAfterFree(pool: map<word, nat>, r: seq<Allocation>, k: int)
    requires RecordsValid(pool, r) && 0 <= k < |r| && r[k].ptr != 0
    ensures Unjoin(r, r[k].ptr) == r[k := Allocation(0, 0)]
    ensures RecordsValid(pool - {r[k].ptr}, Unjoin(r, r[k].ptr))
  {
    hide Blocks;
    assert forall i :: 0 <= i < |r| && i != k ==> r[i].ptr != r[k].ptr;
  }

  lemma PagesAfterFree(t: Table, space: seq<word>, image: word, stack: word, r: seq<Allocation>, k: int)
    requires Sound(t) && |space| == PAGES
    requires PagesOwned(Pool(t), space, image, stack, r) && RecordsMapped(space, r) && RecordsValid(Pool(t), r)
    requires 0 <= k < |r| && r[k].ptr != 0 && image != r[k].ptr && stack != r[k].ptr
    ensures var s := r[k := Allocation(0, 0)];
            var w := Remapped(space, r[k].ptr, r[k].size, 0);
            PagesOwned(Pool(t) - {r[k].ptr}, w, image, stack, s) && RecordsMapped(w, s)
  {
    hide Sound, Pool, Blocks;
    var ptr, size := r[k].ptr, r[k].size;
    var s, w := r[k := Allocation(0, 0)], Remapped(space, ptr, size, 0);
    forall q | 0 <= q < PAGES && Writable(w[q])
      ensures OwnFrame(Pool(t) - {ptr}, image, stack, s, Mask(w[q]), q)
    {
      assert !InRecord(r, k, q);
      OwnFrameShrinks(Pool(t), image, stack, r, k, Mask(w[q]), q);
    }
    forall i, q | 0 <= q < PAGES && InRecord(s, i, q)
      ensures w[q] == q * PAGE_SIZE + USER_WRITE_FLAGS
    {
      assert InRecord(r, i, q) && i != k;
      if InRecord(r, k, q) {
        RecordsAreApart(t, r, i, k, q);
      }
    }
  }

  lemma OwnFrameShrinks(pool: map<word, nat>, image: word, stack: word, r: seq<Allocation>, k: int, f: word, q: int)
    requires OwnFrame(pool, image, stack, r, f, q) && 0 <= k < |r| && !InRecord(r, k, q)
    requires image != r[k].ptr && stack != r[k].ptr
    ensures OwnFrame(pool - {r[k].ptr}, image, stack, r[k := Allocation(0, 0)], f, q)
  {
    if i :| InRecord(r, i, q) {
      assert InRecord(r[k := Allocation(0, 0)], i, q);
    }
  }

  /** A page of one record is no page of another. */
  lemma RecordsAreApart(t: Table, r: seq<Allocation>, i: int, j: int, q: int)
    requires Sound(t) && RecordsValid(Pool(t), r) && InRecord(r, i, q) && InRecord(r, j, q)
    ensures i == j
  {
    hide Sound, Pool;
    RecordSpans(t, r, i, q);
    RecordSpans(t, r, j, q);
    SpansAreDisjoint(t, r[i].ptr, r[j].ptr, q * PAGE_SIZE);
  }

  lemma RecordSpans(t: Table, r: seq<Allocation>, i: int, q: int)
    requires Sound(t) && RecordsValid(Pool(t), r) && InRecord(r, i, q)
    ensures Spans(Pool(t), r[i].ptr, q * PAGE_SIZE)
  {
    hide Sound, Pool;
    BlocksCover(r[i].size);
  }

  // ---------- loading ----------

  /** Mapping frames of the image or the stack, anywhere and with any flags, gives nothing away. */
  lemma MapOwnFrames(m: Frames, d: word, virt: word, phys: word, physEnd: word, flags: Flags,
                     pool: map<word, nat>, image: word, stack: word, r: seq<Allocation>)
    requires Paged(m, d) && PagesOwned(pool, SpaceOf(m, d), image, stack, r)
    requires forall a: word :: phys <= a < physEnd ==> Spans(pool, image, a) || Spans(pool, stack, a)
    ensures PagesOwned(pool, SpaceOf(MapTo(m, d, virt, phys, physEnd, flags).0, d), image, stack, r)
  {
    hide MapTo, SpaceOf, Paged, Ahead, Spans, OwnFrame, Mask;
    var n := MapTo(m, d, virt, phys, physEnd, flags).0;
    forall q | 0 <= q < PAGES && Writable(SpaceOf(n, d)[q])
      ensures OwnFrame(pool, image, stack, r, Mask(SpaceOf(n, d)[q]), q)
    {
      MapToIsPointwise(m, d, virt, phys, physEnd, flags, q);
      var k := Ahead(virt / PAGE_SIZE, q);
      if Mappable(virt, phys, physEnd) && phys + k * PAGE_SIZE < physEnd {
        AheadIsNatural(virt, q);
        OwnFrameMapped(pool, image, stack, r, phys, physEnd, k, flags, q);
      }
    }
  }

  lemma OwnFrameMapped(pool: map<word, nat>, image: word, stack: word, r: seq<Allocation>,
                       phys: word, physEnd: word, k: nat, flags: Flags, q: int)
    requires Aligned(phys) && phys + k * PAGE_SIZE < physEnd
    requires forall a: word :: phys <= a < physEnd ==> Spans(pool, image, a) || Spans(pool, stack, a)
    ensures OwnFrame(pool, image, stack, r, Mask(phys + k * PAGE_SIZE + flags), q)
  {
    hide Spans, InRecord;
    MaskDropsFlags(phys + k * PAGE_SIZE, flags);
  }

  lemma AheadIsNatural(virt: word, q: int)
    requires 0 <= q < PAGES
    ensures Ahead(virt / PAGE_SIZE, q) >= 0
  {
  }
}
