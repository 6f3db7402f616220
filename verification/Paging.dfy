/** The paging code itself (src/memory/paging/paging.c), proved against PageTables and AddressSpace. */
module Paging {
  import opened Config
  import opened Words
  import opened HeapTable
  import opened Heap
  import opened KernelHeap
  import opened PageTables
  import opened AddressSpace

  /** Zeroing a frame before filling it makes no difference. */
  lemma AddedTable(m: Frames, d: word, i: nat, entry: word, flags: Flags)
    requires i < ENTRIES && d in m && |m[d]| == ENTRIES
    ensures var n := m[entry := ZeroTable()][entry := IdentityTable(i, flags)];
            d in n && |n[d]| == ENTRIES &&
            n[d := n[d][i := Wrap(entry + WithWriteable(flags))]] == AddTable(m, d, i, entry, flags)
  {
    assert m[entry := ZeroTable()][entry := IdentityTable(i, flags)] == m[entry := IdentityTable(i, flags)];
  }

  /** The kernel's physical memory as paging sees it: the heap, and the frames used as tables. */
  class PageMemory {
    const heap: Heap
    var frames: Frames

    ghost predicate Valid()
    {
      heap.Valid() && heap.saddr == HEAP_ADDRESS && heap.entries.Length == HEAP_BLOCKS
    }

    constructor (heap: Heap)
      ensures this.heap == heap && frames == map[]
    {
      this.heap := heap;
      frames := map[];
    }

    /** kzalloc of anything up to a page. */
    method KzallocBlock(size: word) returns (p: word)
      requires Valid() && FreeCount(heap.Table()) >= 1 && 1 <= size <= PAGE_SIZE
      modifies heap.entries
      ensures !Overruns(old(heap.Table()), 1)
      ensures heap.Table() == Kmalloc(old(heap.Table()), 1)
      ensures p == KmallocAddress(old(heap.Table()), 1)
    {
      SingleBlockAlloc(heap.Table());
      p := heap.Malloc(size);
    }

    /** kzalloc of one page, kept as a zeroed frame. */
    method KzallocFrame() returns (p: word)
      requires Valid() && FreeCount(heap.Table()) >= 1
      modifies this, heap.entries
      ensures !Overruns(old(heap.Table()), 1)
      ensures heap.Table() == Kmalloc(old(heap.Table()), 1)
      ensures p == KmallocAddress(old(heap.Table()), 1)
      ensures frames == old(frames)[p := ZeroTable()]
    {
      p := KzallocBlock(PAGE_SIZE);
      frames := frames[p := ZeroTable()];
    }

    /** paging_set */
    method Set(d: word, virt: word, val: word) returns (res: int)
      requires Paged(frames, d)
      modifies this
      ensures (frames, res) == PageTables.Set(old(frames), d, virt, val)
    {
      if !Aligned(virt) {
        return -EINVARG;
      }
      var directoryIndex := virt / (ENTRIES * PAGE_SIZE);
      var tableIndex := virt % (ENTRIES * PAGE_SIZE) / PAGE_SIZE;
      var entry := frames[d][directoryIndex];
      var table := Mask(entry);
      assert table == TableAt(frames, d, directoryIndex);
      var entries: seq<word> := frames[table][tableIndex := val];
      frames := frames[table := entries];
      res := 0;
    }

    /** paging_map */
    method Map(d: word, virt: word, phys: word, flags: Flags) returns (res: int)
      requires Paged(frames, d)
      modifies this
      ensures (frames, res) == PageTables.Map(old(frames), d, virt, phys, flags)
    {
      if !Aligned(virt) || !Aligned(phys) {
        return -EINVARG;
      }
      res := Set(d, virt, phys + flags);
    }

    /** paging_map_range */
    method MapRange(d: word, virt0: word, phys0: word, count: nat, flags: Flags) returns (res: int)
      requires Paged(frames, d)
      modifies this
      ensures (frames, res) == PageTables.MapRange(old(frames), d, virt0, phys0, count, flags)
    {
      hide Paged;
      var virt: word, phys: word := virt0, phys0;
      res := 0;
      var i := 0;
      while i < count
        invariant i <= count && res == 0 && Paged(frames, d)
        invariant PageTables.MapRange(old(frames), d, virt0, phys0, count, flags)
               == PageTables.MapRange(frames, d, virt, phys, count - i, flags)
      {
        res := Map(d, virt, phys, flags);
        if res < 0 {
          break;
        }
        virt := Wrap(virt + PAGE_SIZE);
        phys := Wrap(phys + PAGE_SIZE);
        i := i + 1;
      }
    }

    /** paging_map_to */
    method MapTo(d: word, virt: word, phys: word, physEnd: word, flags: Flags) returns (res: int)
      requires Paged(frames, d)
      modifies this
      ensures (frames, res) == PageTables.MapTo(old(frames), d, virt, phys, physEnd, flags)
    {
      if !Aligned(virt) {
        return -EINVARG;
      }
      if !Aligned(phys) {
        return -EINVARG;
      }
      if !Aligned(physEnd) {
        return -EINVARG;
      }
      if physEnd < phys {
        return -EINVARG;
      }
      var totalBytes := physEnd - phys;
      var totalPages := totalBytes / PAGE_SIZE;
      res := MapRange(d, virt, phys, totalPages, flags);
    }

    /** The inner loop of paging_new_4gb: the entries of table `i`, whose first page is at `offset`. */
    method FillTable(entry: word, ghost i: nat, offset: word, flags: Flags)
      requires entry in frames && |frames[entry]| == ENTRIES
      requires i < ENTRIES && offset == i * ENTRIES * PAGE_SIZE
      modifies this
      ensures frames == old(frames)[entry := IdentityTable(i, flags)]
    {
      var b := 0;
      var table: seq<word> := frames[entry];
      while b < ENTRIES
        invariant b <= ENTRIES && |table| == ENTRIES && frames == old(frames)[entry := table]
        invariant forall k :: 0 <= k < b ==> table[k] == offset + k * PAGE_SIZE + flags
      {
        table := table[b := offset + b * PAGE_SIZE + flags];
        frames := frames[entry := table];
        b := b + 1;
      }
      assert table == IdentityTable(i, flags);
    }

    /** One round of the outer loop of paging_new_4gb. */
    method AddTable(directory: word, i: nat, offset: word, flags: Flags)
      requires Valid() && Sound(heap.Table()) && FreeCount(heap.Table()) >= 1
      requires directory in frames && |frames[directory]| == ENTRIES && directory in Pool(heap.Table())
      requires i < ENTRIES && offset == i * ENTRIES * PAGE_SIZE
      modifies this, heap.entries
      ensures !Overruns(old(heap.Table()), 1) && heap.Table() == Kmalloc(old(heap.Table()), 1)
      ensures frames == AddressSpace.AddTable(old(frames), directory, i, KmallocAddress(old(heap.Table()), 1), flags)
    {
      hide Sound, Pool, FreeCount, Kmalloc, KmallocAddress, Overruns, AddressSpace.AddTable, ZeroTable, IdentityTable;
      ghost var m := frames;
      SingleBlockAdds(heap.Table());
      var entry := KzallocFrame();
      FillTable(entry, i, offset, flags);
      var slots: seq<word> := frames[directory][i := Wrap(entry + WithWriteable(flags))];
      AddedTable(m, directory, i, entry, flags);
      frames := frames[directory := slots];
    }

    /** The outer loop of paging_new_4gb; `offset` is a C int, so it wraps round after the last table. */
    method BuildTables(directory: word, flags: Flags)
      requires Valid() && Sound(heap.Table()) && FreeCount(heap.Table()) >= ENTRIES
      requires directory in frames && |frames[directory]| == ENTRIES && directory in Pool(heap.Table())
      modifies this, heap.entries
      ensures (heap.Table(), frames) == NewTables(old(heap.Table()), old(frames), directory, 0, flags)
    {
      hide Sound, Pool, FreeCount, Kmalloc, KmallocAddress, Overruns, AddressSpace.AddTable;
      var offset: word := 0;
      var i := 0;
      while i < ENTRIES
        invariant i <= ENTRIES && directory in frames && |frames[directory]| == ENTRIES
        invariant Sound(heap.Table()) && FreeCount(heap.Table()) >= ENTRIES - i && directory in Pool(heap.Table())
        invariant offset == Wrap(i * ENTRIES * PAGE_SIZE)
        invariant NewTables(old(heap.Table()), old(frames), directory, 0, flags)
               == NewTables(heap.Table(), frames, directory, i, flags)
      {
        SingleBlockAdds(heap.Table());
        AddTable(directory, i, offset, flags);
        offset := Wrap(offset + ENTRIES * PAGE_SIZE);
        i := i + 1;
      }
    }

    /** paging_new_4gb; the chunk struct holds nothing but the directory's address. */
    method New4gb(flags: Flags) returns (directory: word, chunk: word)
      requires Valid() && Sound(heap.Table()) && FreeCount(heap.Table()) >= SPACE_BLOCKS
      modifies this, heap.entries
      ensures NewSpace(old(heap.Table()), old(frames), flags).table == heap.Table()
      ensures NewSpace(old(heap.Table()), old(frames), flags).frames == frames
      ensures NewSpace(old(heap.Table()), old(frames), flags).dir == directory
      ensures NewSpace(old(heap.Table()), old(frames), flags).chunk == chunk
    {
      hide Sound, Pool, FreeCount, Overruns, Kmalloc, KmallocAddress, NewTables, TablesBuilt, ZeroTable;
      SingleBlockAdds(heap.Table());
      directory := KzallocFrame();
      ghost var t, m := heap.Table(), frames;
      BuildTables(directory, flags);
      NewTablesFacts(t, m, directory, 0, flags);
      SingleBlockAdds(heap.Table());
      chunk := KzallocBlock(4);
    }

    /** paging_free_4gb */
    method Free4gb(directory: word, chunk: word)
      requires Valid() && TablesInHeap(frames, directory) && InHeap(directory) && InHeap(chunk)
      modifies heap.entries
      ensures heap.Table() == FreeSpace(old(heap.Table()), frames, directory, chunk)
    {
      hide AddressToBlock;
      var i := 0;
      while i < ENTRIES
        invariant i <= ENTRIES
        invariant FreeTables(old(heap.Table()), frames, directory, 0) == FreeTables(heap.Table(), frames, directory, i)
      {
        var entry := frames[directory][i];
        var table := Mask(entry);
        assert table == TableAt(frames, directory, i);
        HeapAddressToBlock(table);
        heap.Free(table);
        i := i + 1;
      }
      HeapAddressToBlock(directory);
      HeapAddressToBlock(chunk);
      heap.Free(directory);
      heap.Free(chunk);
    }

    /** paging_get */
    method Get(directory: word, virt: word) returns (entry: word)
      requires Paged(frames, directory)
      ensures entry == PageTables.Get(frames, directory, virt)
    {
      var directoryIndex, tableIndex := 0, 0;
      if Aligned(virt) {
        directoryIndex := virt / (ENTRIES * PAGE_SIZE);
        tableIndex := virt % (ENTRIES * PAGE_SIZE) / PAGE_SIZE;
      }
      var table := Mask(frames[directory][directoryIndex]);
      assert table == TableAt(frames, directory, directoryIndex);
      entry := frames[table][tableIndex];
    }

    /** paging_get_phyiscal_address */
    method PhysicalAddress(directory: word, virt: word) returns (phys: word)
      requires Paged(frames, directory)
      ensures phys == Physical(frames, directory, virt)
    {
      var lower := Mask(virt);
      var entry := Get(directory, lower);
      phys := Wrap(Mask(entry) + (virt - lower));
    }
  }
}
