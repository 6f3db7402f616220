/** The block allocator itself (src/memory/heap/heap.c), proved against HeapTable. */
module Heap {
  import opened Config
  import opened Words
  import opened HeapTable

  const BLOCK_SIZE := 4096

  /** C's `/` on signed integers, which truncates toward zero. */
  function TruncDiv(a: int, b: int): int
    requires b > 0
  {
    if a >= 0 then a / b else -((-a) / b)
  }

  /** A 32-bit pattern read as a signed `int`. */
  function Signed(w: word): int {
    if w < 0x8000_0000 then w else w - WORD_LIMIT
  }

  /** heap_align_value_to_upper: its parameter is a signed `int`, so large sizes turn negative. */
  function AlignUp(size: word): word {
    var val := Signed(size);
    if val % BLOCK_SIZE == 0 then size
    else Wrap(TruncDiv(val, BLOCK_SIZE) * BLOCK_SIZE + BLOCK_SIZE)
  }

  /** Blocks a request of `size` bytes asks for. */
  function Blocks(size: word): nat {
    AlignUp(size) / BLOCK_SIZE
  }

  /**
   The blocks cover the request, except for sizes in the last two pages of the 32-bit range
   that are not a multiple of the block size: there rounding up comes back to 0 or 4096.
   */
  lemma BlocksCover(size: word)
    ensures Blocks(size) * BLOCK_SIZE >= size <==> size <= 0xffff_e000 || size == 0xffff_f000
  {
  }

  /** No block is wasted while the size fits in a signed int. */
  lemma BlocksAreTight(size: word)
    requires 1 <= size <= 0x8000_0000
    ensures (Blocks(size) - 1) * BLOCK_SIZE < size <= Blocks(size) * BLOCK_SIZE
  {
  }

  /** Beyond 2^31 the signed rounding takes one block too many for sizes that do not fill theirs, and goes round at the top. */
  lemma BlocksExactly(size: word)
    ensures var needed := (size + BLOCK_SIZE - 1) / BLOCK_SIZE;
            Blocks(size) == if size <= 0x8000_0000 || size % BLOCK_SIZE == 0 then needed else (needed + 1) % 0x10_0000
  {
  }

  function BlockToAddress(saddr: word, block: nat): word {
    Wrap(saddr + block * BLOCK_SIZE)
  }

  function AddressToBlock(saddr: word, address: word): int {
    TruncDiv(Signed(Wrap(address - saddr)), BLOCK_SIZE)
  }

  /** Allocation seen on the table: the new table and the address, null (0) if the scan fails. */
  function MallocTable(t: Table, n: nat): Table
    requires !Overruns(t, n)
  {
    var f := FirstFit(t, n);
    if f < 0 then t else MarkTaken(t, f, n)
  }

  function MallocAddress(saddr: word, t: Table, n: nat): word {
    var f := FirstFit(t, n);
    if f < 0 then 0 else BlockToAddress(saddr, f)
  }

  /** heap_free on the table; a pointer below the pool would index outside the table. */
  function FreeTable(saddr: word, t: Table, ptr: word): Table
    requires AddressToBlock(saddr, ptr) >= 0
  {
    FreeFrom(t, AddressToBlock(saddr, ptr))
  }

  class Heap {
    const entries: array<Entry>
    const saddr: word

    ghost predicate Valid() {
      && Aligned(saddr) && saddr > 0
      && saddr + entries.Length * BLOCK_SIZE < WORD_LIMIT
    }

    ghost function Table(): Table
      reads entries
    {
      entries[..]
    }

    constructor (saddr: word, entries: array<Entry>)
      ensures this.saddr == saddr && this.entries == entries
    {
      this.saddr := saddr;
      this.entries := entries;
    }

    /** heap_create: checks alignment and the table size, then clears every entry. */
    static method Create(ptr: word, end: word, entries: array<Entry>) returns (res: int, heap: Heap?)
      requires 0 < ptr <= end
      modifies entries
      ensures res == 0 <==> Aligned(ptr) && Aligned(end) && entries.Length == (end - ptr) / BLOCK_SIZE
      ensures res == 0 || res == -EINVARG
      ensures res == 0 <==> heap != null
      ensures heap != null ==> fresh(heap) && heap.Valid() && heap.entries == entries && heap.saddr == ptr
      ensures heap != null ==> Records(heap.Table(), map[])
      ensures heap == null ==> entries[..] == old(entries[..])
    {
      heap := null;
      if !Aligned(ptr) || !Aligned(end) {
        return -EINVARG, null;
      }
      if entries.Length != (end - ptr) / BLOCK_SIZE {
        return -EINVARG, null;
      }
      var i := 0;
      while i < entries.Length
        invariant 0 <= i <= entries.Length
        invariant forall k :: 0 <= k < i ==> entries[k] == FREE
      {
        entries[i] := FREE;
        i := i + 1;
      }
      heap := new Heap(ptr, entries);
      res := 0;
    }

    /** heap_get_start_block */
    method GetStartBlock(total: word) returns (bs: int)
      requires Valid()
      ensures bs == FirstFit(Table(), total)
    {
      bs := -1;
      var bc := 0;
      var i := 0;
      while i < entries.Length
        invariant 0 <= i <= entries.Length && -1 <= bs < i
        invariant bc == if bs == -1 then 0 else i - bs
        invariant FirstFit(Table(), total) == ScanFrom(Table(), total, i, bs)
      {
        if !IsFree(entries[i]) {
          bc := 0;
          bs := -1;
          i := i + 1;
          continue;
        }
        if bs == -1 {
          bs := i;
        }
        bc := bc + 1;
        if bc == total {
          return;
        }
        i := i + 1;
      }
      if bs == -1 {
        return -ENOMEM;
      }
    }

    /** heap_mark_blocks_taken */
    method MarkBlocksTaken(start: nat, total: nat)
      requires Valid() && total >= 1 && start + total <= entries.Length
      modifies entries
      ensures Table() == MarkTaken(old(Table()), start, total)
    {
      var end := start + total - 1;
      var entry := TAKEN | IS_FIRST;
      if total > 1 {
        entry := entry | HAS_NEXT;
      }
      var i := start;
      while i <= end
        invariant start <= i <= end + 1
        invariant i <= end ==> entry == Code(i - start, total)
        invariant forall k :: start <= k < i ==> entries[k] == Code(k - start, total)
        invariant forall k :: 0 <= k < entries.Length && !(start <= k < i) ==> entries[k] == old(entries[k])
      {
        entries[i] := entry;
        entry := TAKEN;
        if i != end - 1 {
          entry := entry | HAS_NEXT;
        }
        i := i + 1;
      }
    }

    /** heap_mark_blocks_free */
    method MarkBlocksFree(start: nat)
      requires Valid()
      modifies entries
      ensures Table() == FreeFrom(old(Table()), start)
    {
      var i := start;
      while i < entries.Length
        invariant start <= i
        invariant FreeFrom(old(Table()), start) == FreeFrom(Table(), i)
      {
        var entry := entries[i];
        ghost var before := Table();
        entries[i] := FREE;
        assert Table() == before[i := FREE];
        if !HasNext(entry) {
          return;
        }
        i := i + 1;
      }
    }

    /** heap_malloc_blcoks */
    method MallocBlocks(total: word) returns (address: word)
      requires Valid() && total >= 1 && !Overruns(Table(), total)
      modifies entries
      ensures Table() == MallocTable(old(Table()), total)
      ensures address == MallocAddress(saddr, old(Table()), total)
    {
      var start := GetStartBlock(total);
      if start < 0 {
        return 0;
      }
      address := BlockToAddress(saddr, start);
      MarkBlocksTaken(start, total);
    }

    /** heap_malloc */
    method Malloc(size: word) returns (address: word)
      requires Valid() && Blocks(size) >= 1 && !Overruns(Table(), Blocks(size))
      modifies entries
      ensures Table() == MallocTable(old(Table()), Blocks(size))
      ensures address == MallocAddress(saddr, old(Table()), Blocks(size))
    {
      var alignedSize := AlignUp(size);
      address := MallocBlocks(alignedSize / BLOCK_SIZE);
    }

    /** heap_free */
    method Free(ptr: word)
      requires Valid() && AddressToBlock(saddr, ptr) >= 0
      modifies entries
      ensures Table() == FreeTable(saddr, old(Table()), ptr)
    {
      MarkBlocksFree(AddressToBlock(saddr, ptr));
    }
  }
}
