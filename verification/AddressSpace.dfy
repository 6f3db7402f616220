/** Building and tearing down a 4 GB address space out of heap blocks (src/memory/paging/paging.c, seen on values). */
module AddressSpace {
  import opened Words
  import opened HeapTable
  import opened Heap
  import opened KernelHeap
  import opened PageTables

  /** Blocks an address space takes: a directory, its tables and the chunk struct. */
  const SPACE_BLOCKS := 1026

  function WithWriteable(flags: Flags): Flags {
    if flags / WRITEABLE % 2 == 1 then flags else flags + WRITEABLE
  }

  /** Table `i` of the linear mapping. */
  function IdentityTable(i: nat, flags: Flags): (s: seq<word>)
    requires i < ENTRIES
    ensures |s| == ENTRIES
  {
    seq(ENTRIES, b requires 0 <= b < ENTRIES => (i * ENTRIES + b) * PAGE_SIZE + flags)
  }

  function ZeroTable(): (s: seq<word>)
    ensures |s| == ENTRIES
  {
    seq(ENTRIES, b => 0)
  }

  /** One round of the table loop: allocate table `i`, fill it, enter it in the directory. */
  function AddTable(m: Frames, d: word, i: nat, table: word, flags: Flags): (n: Frames)
    requires i < ENTRIES && d in m && |m[d]| == ENTRIES
    ensures d in n && |n[d]| == ENTRIES
  {
    var n := m[table := IdentityTable(i, flags)];
    var entries: seq<word> := n[d][i := Wrap(table + WithWriteable(flags))];
    n[d := entries]
  }

  function NewTables(t: Table, m: Frames, d: word, i: nat, flags: Flags): (r: (Table, Frames))
    requires i <= ENTRIES && d in m && |m[d]| == ENTRIES && FreeCount(t) >= ENTRIES - i
    ensures d in r.1 && |r.1[d]| == ENTRIES
    ensures FreeCount(r.0) == FreeCount(t) - (ENTRIES - i)
    decreases ENTRIES - i
  {
    if i == ENTRIES then (t, m)
    else
      SingleBlockAlloc(t);
      NewTables(Kmalloc(t, 1), AddTable(m, d, i, KmallocAddress(t, 1), flags), d, i + 1, flags)
  }

  /** `n` is `m` with tables `i` on of the linear mapping built in frames outside `live`. */
  ghost predicate TablesBuilt(live: set<word>, m: Frames, d: word, i: nat, flags: Flags, n: Frames)
    requires i <= ENTRIES && d in m && |m[d]| == ENTRIES && d in n && |n[d]| == ENTRIES
  {
    && (forall j :: 0 <= j < i ==> n[d][j] == m[d][j])
    && (forall j :: i <= j < ENTRIES ==> n[d][j] == TableAt(n, d, j) + WithWriteable(flags))
    && (forall j :: i <= j < ENTRIES ==> TableAt(n, d, j) !in live)
    && (forall j :: i <= j < ENTRIES ==> TableAt(n, d, j) in n && n[TableAt(n, d, j)] == IdentityTable(j, flags))
    && (forall j, k :: i <= j < k < ENTRIES ==> TableAt(n, d, j) != TableAt(n, d, k))
    && (forall f :: f in m && f in live && f != d ==> f in n && n[f] == m[f])
  }

  ghost function Ones(fs: set<word>): map<word, nat> {
    map f | f in fs :: 1
  }

  lemma OnesGrow(pool: map<word, nat>, p: word, fs: set<word>, all: set<word>)
    requires all == fs + {p}
    ensures pool[p := 1] + Ones(fs) == pool + Ones(all)
  {
  }

  lemma AddTableAdds(m: Frames, d: word, i: nat, p: word, flags: Flags)
    requires i < ENTRIES && d in m && |m[d]| == ENTRIES && InHeap(p) && p != d
    ensures var n := AddTable(m, d, i, p, flags);
            && p in n && n[p] == IdentityTable(i, flags)
            && n[d][i] == p + WithWriteable(flags) && TableAt(n, d, i) == p
            && (forall j :: 0 <= j < i ==> n[d][j] == m[d][j])
            && (forall f :: f in m && f != p && f != d ==> f in n && n[f] == m[f])
  {
    MaskDropsFlags(p, WithWriteable(flags));
  }

  lemma TablesBuiltStep(live: set<word>, live': set<word>, m: Frames, d: word, i: nat, p: word, flags: Flags, n: Frames)
    requires i < ENTRIES && d in m && |m[d]| == ENTRIES && InHeap(p) && p !in live && d in live
    requires d in n && |n[d]| == ENTRIES && live' == live + {p}
    requires TablesBuilt(live', AddTable(m, d, i, p, flags), d, i + 1, flags, n)
    ensures TablesBuilt(live, m, d, i, flags, n)
    ensures TablesFrom(n, d, i) == TablesFrom(n, d, i + 1) + {p}
  {
    AddTableAdds(m, d, i, p, flags);
    assert TableAt(n, d, i) == p;
  }

  lemma NoTables(pool: map<word, nat>, m: Frames, d: word, flags: Flags)
    requires d in m && |m[d]| == ENTRIES
    ensures TablesBuilt(pool.Keys, m, d, ENTRIES, flags, m)
    ensures pool + Ones(TablesFrom(m, d, ENTRIES)) == pool
  {
    assert TablesFrom(m, d, ENTRIES) == {};
  }

  lemma {:induction false} NewTablesFacts(t: Table, m: Frames, d: word, i: nat, flags: Flags)
    requires i <= ENTRIES && Sound(t) && d in m && |m[d]| == ENTRIES && d in Pool(t) && FreeCount(t) >= ENTRIES - i
    ensures var (u, n) := NewTables(t, m, d, i, flags);
            && Sound(u) && FreeCount(u) == FreeCount(t) - (ENTRIES - i)
            && TablesBuilt(Pool(t).Keys, m, d, i, flags, n)
            && Pool(u) == Pool(t) + Ones(TablesFrom(n, d, i))
    decreases ENTRIES - i
  {
    hide Sound, Pool, FreeCount, Kmalloc, KmallocAddress, Overruns, Ones, TablesBuilt;
    if i == ENTRIES {
      NoTables(Pool(t), m, d, flags);
    } else {
      SingleBlockAdds(t);
      var p := KmallocAddress(t, 1);
      var t1, m1 := Kmalloc(t, 1), AddTable(m, d, i, p, flags);
      NewTablesFacts(t1, m1, d, i + 1, flags);
      var n := NewTables(t1, m1, d, i + 1, flags).1;
      TablesBuiltStep(Pool(t).Keys, Pool(t1).Keys, m, d, i, p, flags, n);
      OnesGrow(Pool(t), p, TablesFrom(n, d, i + 1), TablesFrom(n, d, i));
    }
  }

  // ---------- a whole address space ----------

  datatype Built = Built(table: Table, frames: Frames, dir: word, chunk: word)

  /** paging_new_4gb, with enough blocks left: a null allocation would be written through. */
  function NewSpace(t: Table, m: Frames, flags: Flags): Built
    requires FreeCount(t) >= SPACE_BLOCKS
  {
    SingleBlockAlloc(t);
    var d := KmallocAddress(t, 1);
    var (u, n) := NewTables(Kmalloc(t, 1), m[d := ZeroTable()], d, 0, flags);
    SingleBlockAlloc(u);
    Built(Kmalloc(u, 1), n, d, KmallocAddress(u, 1))
  }

  /** All blocks that belong to an address space. */
  ghost function SpaceBlocks(m: Frames, d: word, chunk: word): set<word>
    requires Paged(m, d)
  {
    Footprint(m, d) + {chunk}
  }

  ghost predicate FreshSpace(live: set<word>, m: Frames, flags: Flags, n: Frames, d: word, chunk: word) {
    && Paged(n, d) && chunk !in Footprint(n, d)
    && SpaceBlocks(n, d, chunk) !! live
    && (forall f :: f in m && f in live ==> f in n && n[f] == m[f])
    && (forall i :: 0 <= i < ENTRIES ==> n[d][i] == TableAt(n, d, i) + WithWriteable(flags))
    && (forall i :: 0 <= i < ENTRIES ==> n[TableAt(n, d, i)] == IdentityTable(i, flags))
  }

  lemma BuiltSpaceIsFresh(live: set<word>, live': set<word>, m: Frames, flags: Flags, n: Frames, d: word, chunk: word)
    requires d in n && |n[d]| == ENTRIES && d !in live && live' == live + {d}
    requires TablesBuilt(live', m[d := ZeroTable()], d, 0, flags, n)
    requires chunk !in live' + TablesFrom(n, d, 0)
    ensures FreshSpace(live, m, flags, n, d, chunk)
  {
    assert forall i :: 0 <= i < ENTRIES ==> TableAt(n, d, i) in TablesFrom(n, d, 0);
  }

  lemma PoolGrew(p0: map<word, nat>, p1: map<word, nat>, p2: map<word, nat>, p3: map<word, nat>,
                 d: word, tables: set<word>, chunk: word, all: set<word>)
    requires p1 == p0[d := 1] && p2 == p1 + Ones(tables) && p3 == p2[chunk := 1]
    requires all == tables + {d} + {chunk}
    ensures p3 == p0 + Ones(all)
    ensures p1.Keys == p0.Keys + {d} && p2.Keys == p1.Keys + tables
  {
  }

  /** A new space takes 1026 blocks that were not live, and changes no frame that was. */
  lemma NewSpaceFacts(t: Table, m: Frames, flags: Flags)
    requires Sound(t) && FreeCount(t) >= SPACE_BLOCKS
    ensures var b := NewSpace(t, m, flags);
            && Sound(b.table) && FreeCount(b.table) == FreeCount(t) - SPACE_BLOCKS
            && FreshSpace(Pool(t).Keys, m, flags, b.frames, b.dir, b.chunk)
            && Pool(b.table) == Pool(t) + Ones(SpaceBlocks(b.frames, b.dir, b.chunk))
  {
    hide Sound, Pool, FreeCount, Kmalloc, KmallocAddress, Overruns, Ones, TablesBuilt, FreshSpace;
    SingleBlockAdds(t);
    var d, t1 := KmallocAddress(t, 1), Kmalloc(t, 1);
    NewTablesFacts(t1, m[d := ZeroTable()], d, 0, flags);
    var (t2, n) := NewTables(t1, m[d := ZeroTable()], d, 0, flags);
    SingleBlockAdds(t2);
    var chunk, t3 := KmallocAddress(t2, 1), Kmalloc(t2, 1);
    var tables := TablesFrom(n, d, 0);
    PoolGrew(Pool(t), Pool(t1), Pool(t2), Pool(t3), d, tables, chunk, tables + {d} + {chunk});
    BuiltSpaceIsFresh(Pool(t).Keys, Pool(t1).Keys, m, flags, n, d, chunk);
  }

  /** The new space is the identity on all 2^20 pages. */
  lemma NewSpaceIsIdentity(live: set<word>, m: Frames, flags: Flags, n: Frames, d: word, chunk: word, v: word)
    requires FreshSpace(live, m, flags, n, d, chunk)
    ensures SpaceOf(n, d)[v / PAGE_SIZE] == v / PAGE_SIZE * PAGE_SIZE + flags
    ensures Physical(n, d, v) == v
  {
    PhysicalBySpace(n, d, v);
    MaskDropsFlags(v / PAGE_SIZE * PAGE_SIZE, flags);
    var p := v / PAGE_SIZE;
    assert EntryOf(n, d, p) == IdentityTable(p / ENTRIES, flags)[p % ENTRIES];
  }

  lemma {:induction false} TablesCount(m: Frames, d: word, i: nat)
    requires i <= ENTRIES && Paged(m, d)
    ensures |TablesFrom(m, d, i)| == ENTRIES - i
    decreases ENTRIES - i
  {
    if i < ENTRIES {
      TablesCount(m, d, i + 1);
      assert TablesFrom(m, d, i) == TablesFrom(m, d, i + 1) + {TableAt(m, d, i)};
    }
  }

  /** The blocks of a space are 1026 different ones. */
  lemma SpaceBlocksCount(m: Frames, d: word, chunk: word)
    requires Paged(m, d) && chunk !in Footprint(m, d)
    ensures |SpaceBlocks(m, d, chunk)| == SPACE_BLOCKS
  {
    TablesCount(m, d, 0);
    assert d !in TablesFrom(m, d, 0);
  }

  // ---------- tearing down ----------

  ghost predicate TablesInHeap(m: Frames, d: word) {
    Paged(m, d) && forall j :: 0 <= j < ENTRIES ==> InHeap(TableAt(m, d, j))
  }

  /** The freeing loop from slot `i` on. */
  function FreeTables(t: Table, m: Frames, d: word, i: nat): Table
    requires i <= ENTRIES && TablesInHeap(m, d)
    decreases ENTRIES - i
  {
    if i == ENTRIES then t
    else
      HeapAddressToBlock(TableAt(m, d, i));
      FreeTables(Kfree(t, TableAt(m, d, i)), m, d, i + 1)
  }

  /** paging_free_4gb */
  function FreeSpace(t: Table, m: Frames, d: word, chunk: word): Table
    requires TablesInHeap(m, d) && InHeap(d) && InHeap(chunk)
  {
    HeapAddressToBlock(d);
    HeapAddressToBlock(chunk);
    Kfree(Kfree(FreeTables(t, m, d, 0), d), chunk)
  }

  lemma {:induction false} FreeTablesFacts(t: Table, m: Frames, d: word, i: nat)
    requires i <= ENTRIES && TablesInHeap(m, d) && Sound(t) && TablesFrom(m, d, i) <= Pool(t).Keys
    ensures Sound(FreeTables(t, m, d, i))
    ensures Pool(FreeTables(t, m, d, i)) == Pool(t) - TablesFrom(m, d, i)
    decreases ENTRIES - i
  {
    hide Sound, Pool, Kfree;
    if i == ENTRIES {
      assert TablesFrom(m, d, i) == {};
      assert Pool(t) - {} == Pool(t);
    } else {
      var p := TableAt(m, d, i);
      assert TablesFrom(m, d, i) == TablesFrom(m, d, i + 1) + {p} && p !in TablesFrom(m, d, i + 1);
      KfreeRemoves(t, p);
      FreeTablesFacts(Kfree(t, p), m, d, i + 1);
      assert Pool(t) - {p} - TablesFrom(m, d, i + 1) == Pool(t) - TablesFrom(m, d, i);
    }
  }

  /** Tearing a space down gives back exactly its blocks. */
  lemma FreeSpaceFacts(t: Table, m: Frames, d: word, chunk: word)
    requires Sound(t) && Paged(m, d) && chunk !in Footprint(m, d)
    requires SpaceBlocks(m, d, chunk) <= Pool(t).Keys
    ensures TablesInHeap(m, d) && InHeap(d) && InHeap(chunk)
    ensures Sound(FreeSpace(t, m, d, chunk))
    ensures Pool(FreeSpace(t, m, d, chunk)) == Pool(t) - SpaceBlocks(m, d, chunk)
  {
    LiveSpaceIsInHeap(t, m, d, chunk);
    assert d !in TablesFrom(m, d, 0);
    hide Sound, Pool, Kfree, Paged, InHeap, FreeTables, AddressToBlock, TablesInHeap, TablesFrom;
    FreeTablesFacts(t, m, d, 0);
    var t1 := FreeTables(t, m, d, 0);
    KfreeRemoves(t1, d);
    KfreeRemoves(Kfree(t1, d), chunk);
    RemovedInTurn(Pool(t), TablesFrom(m, d, 0), d, chunk);
  }

  lemma RemovedInTurn(pool: map<word, nat>, fs: set<word>, d: word, chunk: word)
    ensures pool - fs - {d} - {chunk} == pool - (fs + {d} + {chunk})
  {
  }

  lemma LiveSpaceIsInHeap(t: Table, m: Frames, d: word, chunk: word)
    requires Sound(t) && Paged(m, d) && SpaceBlocks(m, d, chunk) <= Pool(t).Keys
    ensures TablesInHeap(m, d) && InHeap(d) && InHeap(chunk)
  {
    assert d in SpaceBlocks(m, d, chunk) && chunk in SpaceBlocks(m, d, chunk);
    forall j | 0 <= j < ENTRIES
      ensures InHeap(TableAt(m, d, j))
    {
      assert TableAt(m, d, j) in SpaceBlocks(m, d, chunk);
    }
  }

  /** Building a space and tearing it down leaves the heap table as it was, byte for byte. */
  lemma NewThenFreeSpace(t: Table, m: Frames, flags: Flags)
    requires Sound(t) && FreeCount(t) >= SPACE_BLOCKS
    ensures var b := NewSpace(t, m, flags);
            && TablesInHeap(b.frames, b.dir) && InHeap(b.dir) && InHeap(b.chunk)
            && FreeSpace(b.table, b.frames, b.dir, b.chunk) == t
  {
    hide Sound, Pool, FreeCount, Ones, NewSpace, FreeSpace;
    NewSpaceFacts(t, m, flags);
    var b := NewSpace(t, m, flags);
    var blocks := SpaceBlocks(b.frames, b.dir, b.chunk);
    OnesRemoved(Pool(t), blocks);
    FreeSpaceFacts(b.table, b.frames, b.dir, b.chunk);
    SamePoolSameTable(FreeSpace(b.table, b.frames, b.dir, b.chunk), t);
  }

  lemma OnesRemoved(pool: map<word, nat>, fs: set<word>)
    requires fs !! pool.Keys
    ensures fs <= (pool + Ones(fs)).Keys
    ensures pool + Ones(fs) - fs == pool
  {
  }
}
