/**
 Whole runs of the kernel's memory: any sequence of loads, mallocs, frees and terminations,
 with the kernel's own allocations in between.
 */
module KernelRun {
  import opened Words
  import opened HeapTable
  import opened Heap
  import opened KernelHeap
  import opened PageTables
  import opened AddressSpace
  import opened ProcessMemory
  import opened ProcessPages

  const MAX_PROCESSES := 12

  /** The shared memory, the live processes by slot, and the blocks the kernel keeps for itself. */
  datatype State = State(mem: Memory, procs: map<nat, Process>, kernel: set<word>)

  /** Who a live block belongs to. */
  datatype Owner = Kernel | Of(slot: nat, kind: Kind)

  // ---------- the invariant ----------

  ghost predicate AllPaged(st: State) {
    forall s :: s in st.procs ==> Paged(st.mem.frames, st.procs[s].dir)
  }

  ghost function HeldBy(st: State, w: Owner): set<word>
    requires AllPaged(st)
  {
    match w
    case Kernel => st.kernel
    case Of(s, k) => if s in st.procs then Held(st.mem.frames, st.procs[s], k) else {}
  }

  ghost predicate ProcessOk(pool: map<word, nat>, m: Frames, p: Process) {
    && Paged(m, p.dir) && p.chunk !in Footprint(m, p.dir)
    && RightSizes(pool, m, p) && RecordsValid(pool, p.records)
    && RecordsMapped(SpaceOf(m, p.dir), p.records)
    && PagesOwned(pool, SpaceOf(m, p.dir), p.image.memory, p.stack, p.records)
  }

  /** `o` gives every live block its one holder. */
  ghost predicate Owns(st: State, o: map<word, Owner>)
    requires AllPaged(st)
  {
    && o.Keys == Pool(st.mem.table).Keys
    && (forall w, a :: a in HeldBy(st, w) <==> a in o && o[a] == w)
  }

  ghost predicate Inv(st: State, o: map<word, Owner>) {
    && Sound(st.mem.table)
    && (forall s :: s in st.procs ==> s < MAX_PROCESSES && ProcessOk(Pool(st.mem.table), st.mem.frames, st.procs[s]))
    && AllPaged(st) && Owns(st, o)
  }

  // ---------- processes that a step does not touch ----------

  /** Pool `pool'` still holds all of process `p`'s blocks. */
  ghost predicate Keeps(pool: map<word, nat>, pool': map<word, nat>, m: Frames, p: Process)
    requires Paged(m, p.dir)
  {
    forall k, a :: a in Held(m, p, k) ==> a in pool && a in pool' && pool'[a] == pool[a]
  }

  lemma KeepsSizes(pool: map<word, nat>, pool': map<word, nat>, m: Frames, p: Process)
    requires Paged(m, p.dir) && RightSizes(pool, m, p) && Keeps(pool, pool', m, p)
    ensures RightSizes(pool', m, p)
  {
    hide Paged, SpaceBlocks, Blocks;
    assert p.self in Held(m, p, StructKind) && p.image.memory in Held(m, p, ImageKind);
    assert p.stack in Held(m, p, StackKind) && p.task in Held(m, p, TaskKind);
    assert p.image.ElfImage? ==> p.image.file in Held(m, p, ElfKind);
    assert SpaceBlocks(m, p.dir, p.chunk) == Held(m, p, SpaceKind);
  }

  lemma KeepsRecords(pool: map<word, nat>, pool': map<word, nat>, m: Frames, p: Process)
    requires Paged(m, p.dir) && RecordsValid(pool, p.records) && Keeps(pool, pool', m, p)
    ensures RecordsValid(pool', p.records)
  {
    hide Paged, SpaceBlocks, Blocks;
    assert forall i :: 0 <= i < |p.records| && p.records[i].ptr != 0 ==> p.records[i].ptr in Held(m, p, RecordKind);
  }

  lemma KeepsPages(pool: map<word, nat>, pool': map<word, nat>, m: Frames, p: Process, space: seq<word>)
    requires Paged(m, p.dir) && Keeps(pool, pool', m, p) && |space| == PAGES
    requires PagesOwned(pool, space, p.image.memory, p.stack, p.records)
    ensures PagesOwned(pool', space, p.image.memory, p.stack, p.records)
  {
    hide Paged, SpaceBlocks, Blocks;
    assert p.image.memory in Held(m, p, ImageKind) && p.stack in Held(m, p, StackKind);
  }

  lemma ProcessUnchanged(pool: map<word, nat>, pool': map<word, nat>, m: Frames, n: Frames, p: Process)
    requires ProcessOk(pool, m, p) && Agree(m, n, Footprint(m, p.dir)) && Keeps(pool, pool', m, p)
    ensures ProcessOk(pool', n, p)
    ensures forall k :: Held(n, p, k) == Held(m, p, k)
  {
    SpaceUnchanged(m, n, p.dir);
    KeepsSizes(pool, pool', m, p);
    KeepsRecords(pool, pool', m, p);
    KeepsPages(pool, pool', m, p, SpaceOf(m, p.dir));
    hide Paged, SpaceOf, Blocks, Footprint, RecordsValid, PagesOwned, RecordsMapped, Keeps;
    forall k
      ensures Held(n, p, k) == Held(m, p, k)
    {
    }
  }

  /** A process survives any step that leaves its frames and its blocks alone. */
  lemma OtherProcess(st: State, o: map<word, Owner>, s: nat, pool': map<word, nat>, n: Frames)
    requires Inv(st, o) && s in st.procs
    requires Agree(st.mem.frames, n, Footprint(st.mem.frames, st.procs[s].dir))
    requires forall a :: a in o && o[a].Of? && o[a].slot == s ==> a in pool' && pool'[a] == Pool(st.mem.table)[a]
    ensures ProcessOk(pool', n, st.procs[s])
    ensures forall k :: Held(n, st.procs[s], k) == Held(st.mem.frames, st.procs[s], k)
  {
    hide Sound, Pool, Paged, Held, Footprint, ProcessOk;
    var pool, m, p := Pool(st.mem.table), st.mem.frames, st.procs[s];
    forall k, a | a in Held(m, p, k)
      ensures a in pool && a in pool' && pool'[a] == pool[a]
    {
      assert a in HeldBy(st, Of(s, k));
    }
    ProcessUnchanged(pool, pool', m, n, p);
  }

  lemma FootprintOwner(st: State, o: map<word, Owner>, s: nat, f: word)
    requires Inv(st, o) && s in st.procs && f in Footprint(st.mem.frames, st.procs[s].dir)
    ensures f in o && o[f] == Of(s, SpaceKind)
  {
    hide Sound, Pool, Paged, Footprint, ProcessOk;
    assert f in HeldBy(st, Of(s, SpaceKind));
  }

  // ---------- the kernel's own allocations ----------

  ghost predicate Requestable(t: Table, size: word) {
    1 <= size <= 0xffff_e000 && Blocks(size) >= 1 && !Overruns(t, Blocks(size))
  }

  /** kmalloc for the kernel itself: file system, drivers, its own page tables. */
  ghost function KernelAlloc(st: State, size: word): State
    requires Requestable(st.mem.table, size)
  {
    var ptr := KmallocAddress(st.mem.table, Blocks(size));
    st.(mem := st.mem.(table := Kmalloc(st.mem.table, Blocks(size))),
        kernel := if ptr == 0 then st.kernel else st.kernel + {ptr})
  }

  ghost function KernelFree(st: State, ptr: word): State
    requires InHeap(ptr)
  {
    HeapAddressToBlock(ptr);
    st.(mem := st.mem.(table := Kfree(st.mem.table, ptr)), kernel := st.kernel - {ptr})
  }

  /** Changing only the kernel's share of the pool keeps the invariant. */
  lemma KernelShareChanges(st: State, o: map<word, Owner>, t: Table, kernel: set<word>, o': map<word, Owner>)
    requires Inv(st, o) && Sound(t) && Pool(t).Keys == o'.Keys
    requires forall a :: a in o && o[a] != Kernel ==> a in o' && o'[a] == o[a] && Pool(t)[a] == Pool(st.mem.table)[a]
    requires forall a :: a in o' && o'[a] != Kernel ==> a in o && o[a] == o'[a]
    requires forall a :: a in kernel <==> a in o' && o'[a] == Kernel
    ensures Inv(State(st.mem.(table := t), st.procs, kernel), o')
  {
    hide Sound, Pool, Paged, Held, Footprint, ProcessOk;
    forall s | s in st.procs
      ensures ProcessOk(Pool(t), st.mem.frames, st.procs[s])
    {
      assert ProcessOk(Pool(st.mem.table), st.mem.frames, st.procs[s]);
      ProcessPaged(Pool(st.mem.table), st.mem.frames, st.procs[s]);
      OtherProcess(st, o, s, Pool(t), st.mem.frames);
    }
    var st' := State(st.mem.(table := t), st.procs, kernel);
    forall w, a
      ensures a in HeldBy(st', w) <==> a in o' && o'[a] == w
    {
      assert a in HeldBy(st, w) <==> a in o && o[a] == w;
    }
  }

  lemma ProcessPaged(pool: map<word, nat>, m: Frames, p: Process)
    requires ProcessOk(pool, m, p)
    ensures Paged(m, p.dir)
    ensures Agree(m, m, Footprint(m, p.dir))
  {
  }

  lemma KernelAllocKeepsInv(st: State, o: map<word, Owner>, size: word)
    requires Inv(st, o) && Requestable(st.mem.table, size)
    ensures exists o' :: Inv(KernelAlloc(st, size), o')
  {
    hide Sound, Pool, Paged, Held, Footprint, ProcessOk, Kmalloc, KmallocAddress, Overruns, Blocks, InHeap;
    var t, n := st.mem.table, Blocks(size);
    var ptr := KmallocAddress(t, n);
    KmallocAdds(t, n);
    var o' := if ptr == 0 then o else o[ptr := Kernel];
    assert forall a :: a in HeldBy(st, Kernel) <==> a in o && o[a] == Kernel;
    KernelShareChanges(st, o, Kmalloc(t, n), KernelAlloc(st, size).kernel, o');
    assert Inv(KernelAlloc(st, size), o');
  }

  lemma KernelFreeKeepsInv(st: State, o: map<word, Owner>, ptr: word)
    requires Inv(st, o) && ptr in st.kernel
    ensures InHeap(ptr)
    ensures exists o' :: Inv(KernelFree(st, ptr), o')
  {
    hide Sound, Pool, Paged, Held, Footprint, ProcessOk, Kfree, AddressToBlock;
    assert ptr in HeldBy(st, Kernel);
    assert ptr in Pool(st.mem.table);
    KfreeRemoves(st.mem.table, ptr);
    SpansAreInHeap(st.mem.table, ptr);
    assert forall a :: a in HeldBy(st, Kernel) <==> a in o && o[a] == Kernel;
    KernelShareChanges(st, o, Kfree(st.mem.table, ptr), st.kernel - {ptr}, o - {ptr});
    assert Inv(KernelFree(st, ptr), o - {ptr});
  }

  // ---------- a process's own allocations ----------

  ghost function WithRecords(st: State, slot: nat, mem: Memory, r: seq<Allocation>, kernel: set<word>): State
    requires slot in st.procs
  {
    State(mem, st.procs[slot := st.procs[slot].(records := r)], kernel)
  }

  /** Only the tables of process `p` were written. */
  ghost predicate OnlyOwnTables(m: Frames, n: Frames, d: word)
    requires Paged(m, d)
  {
    && Paged(n, d) && n[d] == m[d] && Footprint(n, d) == Footprint(m, d) && n.Keys == m.Keys
    && (forall f :: f in m && f !in Footprint(m, d) ==> n[f] == m[f])
  }

  lemma OthersAgree(st: State, o: map<word, Owner>, slot: nat, n: Frames, s: nat)
    requires Inv(st, o) && slot in st.procs && s in st.procs && s != slot
    requires OnlyOwnTables(st.mem.frames, n, st.procs[slot].dir)
    ensures Agree(st.mem.frames, n, Footprint(st.mem.frames, st.procs[s].dir))
  {
    hide Sound, Pool, ProcessOk, Owns;
    forall f | f in Footprint(st.mem.frames, st.procs[s].dir)
      ensures f in st.mem.frames && f !in Footprint(st.mem.frames, st.procs[slot].dir)
    {
      FootprintOwner(st, o, s, f);
      if f in Footprint(st.mem.frames, st.procs[slot].dir) {
        FootprintOwner(st, o, slot, f);
      }
    }
  }

  /** The blocks of slot `slot` other than its records, and everyone else's, are as before. */
  ghost predicate OnlyRecordsChange(o: map<word, Owner>, o': map<word, Owner>, pool: map<word, nat>,
                                    pool': map<word, nat>, slot: nat)
    requires o.Keys == pool.Keys && o'.Keys == pool'.Keys
  {
    && (forall a :: a in o && o[a] != Of(slot, RecordKind) ==> a in o' && o'[a] == o[a] && pool'[a] == pool[a])
    && (forall a :: a in o' && o'[a] != Of(slot, RecordKind) ==> a in o && o[a] == o'[a])
  }

  lemma HeldIsOwned(st: State, o: map<word, Owner>, s: nat, k: Kind, a: word)
    requires Inv(st, o) && s in st.procs && a in Held(st.mem.frames, st.procs[s], k)
    ensures a in o && o[a] == Of(s, k) && a in Pool(st.mem.table)
  {
    hide Sound, Pool, Paged, Held, Footprint, ProcessOk;
    assert a in HeldBy(st, Of(s, k));
  }

  /** The owners of a process's fixed blocks, spelled out. */
  ghost predicate OwnsFixtures(o: map<word, Owner>, s: nat, m: Frames, p: Process)
    requires Paged(m, p.dir)
  {
    && p.self in o && o[p.self] == Of(s, StructKind)
    && p.image.memory in o && o[p.image.memory] == Of(s, ImageKind)
    && (p.image.ElfImage? ==> p.image.file in o && o[p.image.file] == Of(s, ElfKind))
    && p.stack in o && o[p.stack] == Of(s, StackKind)
    && p.task in o && o[p.task] == Of(s, TaskKind)
    && (forall a :: a in SpaceBlocks(m, p.dir, p.chunk) ==> a in o && o[a] == Of(s, SpaceKind))
  }

  lemma InvOwnsFixtures(st: State, o: map<word, Owner>, s: nat)
    requires Inv(st, o) && s in st.procs
    ensures Paged(st.mem.frames, st.procs[s].dir)
    ensures OwnsFixtures(o, s, st.mem.frames, st.procs[s])
  {
    hide Sound, Pool, Paged, Footprint, ProcessOk, Inv, SpaceBlocks;
    InvPaged(st, o, s);
    var m, p := st.mem.frames, st.procs[s];
    HeldIsOwned(st, o, s, StructKind, p.self);
    HeldIsOwned(st, o, s, ImageKind, p.image.memory);
    HeldIsOwned(st, o, s, StackKind, p.stack);
    HeldIsOwned(st, o, s, TaskKind, p.task);
    if p.image.ElfImage? {
      HeldIsOwned(st, o, s, ElfKind, p.image.file);
    }
    forall a | a in SpaceBlocks(m, p.dir, p.chunk)
      ensures a in o && o[a] == Of(s, SpaceKind)
    {
      HeldIsOwned(st, o, s, SpaceKind, a);
    }
  }

  lemma SizesOfFixtures(o: map<word, Owner>, s: nat, m: Frames, n: Frames, p: Process, r: seq<Allocation>,
                        pool: map<word, nat>, pool': map<word, nat>)
    requires Paged(m, p.dir) && OnlyOwnTables(m, n, p.dir) && OwnsFixtures(o, s, m, p) && RightSizes(pool, m, p)
    requires o.Keys == pool.Keys
    requires forall a :: a in o && o[a] != Of(s, RecordKind) ==> a in pool' && pool'[a] == pool[a]
    ensures RightSizes(pool', n, p.(records := r))
  {
    hide Paged, Footprint, Blocks;
  }

  lemma SlotSizes(st: State, o: map<word, Owner>, slot: nat, n: Frames, pool': map<word, nat>, r: seq<Allocation>)
    requires Inv(st, o) && slot in st.procs && OnlyOwnTables(st.mem.frames, n, st.procs[slot].dir)
    requires forall a :: a in o && o[a] != Of(slot, RecordKind) ==> a in pool' && pool'[a] == Pool(st.mem.table)[a]
    ensures RightSizes(pool', n, st.procs[slot].(records := r))
  {
    var m, p := st.mem.frames, st.procs[slot];
    InvOwnsFixtures(st, o, slot);
    InvSizes(st, o, slot);
    hide Sound, Pool, Paged, Footprint, Blocks, RightSizes, OwnsFixtures, ProcessOk, OnlyOwnTables;
    SizesOfFixtures(o, slot, m, n, p, r, Pool(st.mem.table), pool');
  }

  lemma InvSizes(st: State, o: map<word, Owner>, s: nat)
    requires Inv(st, o) && s in st.procs
    ensures Paged(st.mem.frames, st.procs[s].dir)
    ensures st.procs[s].chunk !in Footprint(st.mem.frames, st.procs[s].dir)
    ensures RightSizes(Pool(st.mem.table), st.mem.frames, st.procs[s])
  {
    hide Sound, Pool, Paged, Footprint, Blocks, RightSizes, RecordsValid, RecordsMapped, PagesOwned, SpaceOf, Owns;
    assert ProcessOk(Pool(st.mem.table), st.mem.frames, st.procs[s]);
  }

  /** What a change of one process's records must show to keep the invariant. */
  ghost predicate RecordsChange(st: State, o: map<word, Owner>, slot: nat, mem: Memory, r: seq<Allocation>,
                                o': map<word, Owner>)
    requires Inv(st, o) && slot in st.procs
  {
    var p := st.procs[slot];
    && Sound(mem.table) && Pool(mem.table).Keys == o'.Keys
    && OnlyOwnTables(st.mem.frames, mem.frames, p.dir)
    && OnlyRecordsChange(o, o', Pool(st.mem.table), Pool(mem.table), slot)
    && (forall a :: a in RecordPointers(r) <==> a in o' && o'[a] == Of(slot, RecordKind))
    && RecordsValid(Pool(mem.table), r) && RecordsMapped(SpaceOf(mem.frames, p.dir), r)
    && PagesOwned(Pool(mem.table), SpaceOf(mem.frames, p.dir), p.image.memory, p.stack, r)
  }

  lemma RecordsChangeKeepsProcesses(st: State, o: map<word, Owner>, slot: nat, mem: Memory, r: seq<Allocation>,
                                    o': map<word, Owner>, s: nat)
    requires Inv(st, o) && slot in st.procs && s in st.procs && RecordsChange(st, o, slot, mem, r, o')
    ensures var p := WithRecords(st, slot, mem, r, st.kernel).procs[s];
            && ProcessOk(Pool(mem.table), mem.frames, p)
            && (forall k :: s != slot || k != RecordKind ==>
                 Held(mem.frames, p, k) == Held(st.mem.frames, st.procs[s], k))
  {
    hide Sound, Pool, Paged, Footprint, RecordsValid, RecordsMapped, PagesOwned, SpaceOf, RightSizes;
    if s == slot {
      SlotSizes(st, o, slot, mem.frames, Pool(mem.table), r);
      assert ProcessOk(Pool(st.mem.table), st.mem.frames, st.procs[slot]);
    } else {
      OthersAgree(st, o, slot, mem.frames, s);
      OtherProcess(st, o, s, Pool(mem.table), mem.frames);
    }
  }

  lemma RecordsChangeKeepsInv(st: State, o: map<word, Owner>, slot: nat, mem: Memory, r: seq<Allocation>,
                              o': map<word, Owner>)
    requires Inv(st, o) && slot in st.procs && RecordsChange(st, o, slot, mem, r, o')
    ensures Inv(WithRecords(st, slot, mem, r, st.kernel), o')
  {
    hide Sound, Pool, Paged, Footprint, RecordsValid, RecordsMapped, PagesOwned, SpaceOf, RightSizes, OnlyOwnTables,
      ProcessOk, Held;
    var st' := WithRecords(st, slot, mem, r, st.kernel);
    forall s | s in st'.procs
      ensures ProcessOk(Pool(mem.table), mem.frames, st'.procs[s]) && Paged(mem.frames, st'.procs[s].dir)
    {
      RecordsChangeKeepsProcesses(st, o, slot, mem, r, o', s);
      ProcessPaged(Pool(mem.table), mem.frames, st'.procs[s]);
    }
    forall w, a
      ensures a in HeldBy(st', w) <==> a in o' && o'[a] == w
    {
      HeldAfterRecordsChange(st, o, slot, mem, r, o', w);
      assert a in HeldBy(st, w) <==> a in o && o[a] == w;
    }
  }

  lemma HeldAfterRecordsChange(st: State, o: map<word, Owner>, slot: nat, mem: Memory, r: seq<Allocation>,
                               o': map<word, Owner>, w: Owner)
    requires Inv(st, o) && slot in st.procs && RecordsChange(st, o, slot, mem, r, o')
    requires AllPaged(WithRecords(st, slot, mem, r, st.kernel))
    ensures var st' := WithRecords(st, slot, mem, r, st.kernel);
            HeldBy(st', w) == if w == Of(slot, RecordKind) then RecordPointers(r) else HeldBy(st, w)
  {
    hide Sound, Pool, Paged, Footprint, RecordsValid, RecordsMapped, PagesOwned, SpaceOf, RightSizes, OnlyOwnTables,
      ProcessOk;
    if w.Of? && w.slot in st.procs {
      RecordsChangeKeepsProcesses(st, o, slot, mem, r, o', w.slot);
    }
  }

  /** process_malloc of slot `slot`; a block that its error path leaves allocated stays the kernel's. */
  ghost function MallocStep(st: State, slot: nat, size: word): State
    requires slot in st.procs && Paged(st.mem.frames, st.procs[slot].dir) && Requestable(st.mem.table, size)
  {
    var p := st.procs[slot];
    var block := KmallocAddress(st.mem.table, Blocks(size));
    var res := Malloc(st.mem, p.dir, p.records, size);
    WithRecords(st, slot, res.mem, res.records, if res.ptr == 0 && block != 0 then st.kernel + {block} else st.kernel)
  }

  /** process_free of slot `slot`. */
  ghost function FreeStep(st: State, slot: nat, ptr: word): State
    requires slot in st.procs && Paged(st.mem.frames, st.procs[slot].dir) && RecordsInHeap(st.procs[slot].records)
    requires ptr != 0
  {
    var p := st.procs[slot];
    var (mem, r) := Free(st.mem, p.dir, p.records, ptr);
    WithRecords(st, slot, mem, r, st.kernel)
  }

  lemma MapToOnlyOwnTables(m: Frames, d: word, virt: word, phys: word, physEnd: word, flags: Flags)
    requires Paged(m, d)
    ensures OnlyOwnTables(m, MapTo(m, d, virt, phys, physEnd, flags).0, d)
  {
    MapToKeepsShape(m, d, virt, phys, physEnd, flags);
  }

  lemma PointersAfterMalloc(r: seq<Allocation>, k: int, ptr: word, size: word)
    requires 0 <= k < |r| && r[k].ptr == 0 && ptr != 0
    ensures RecordPointers(r[k := Allocation(ptr, size)]) == RecordPointers(r) + {ptr}
  {
    var s := r[k := Allocation(ptr, size)];
    assert s[k].ptr == ptr;
    forall a | a in RecordPointers(r)
      ensures a in RecordPointers(s)
    {
      var i :| 0 <= i < |r| && r[i].ptr != 0 && a == r[i].ptr;
      assert s[i] == r[i];
    }
  }

  lemma PointersAfterFree(pool: map<word, nat>, r: seq<Allocation>, k: int)
    requires RecordsValid(pool, r) && 0 <= k < |r| && r[k].ptr != 0
    ensures RecordPointers(r[k := Allocation(0, 0)]) == RecordPointers(r) - {r[k].ptr}
  {
    hide Blocks;
    var s := r[k := Allocation(0, 0)];
    forall a | a in RecordPointers(r) && a != r[k].ptr
      ensures a in RecordPointers(s)
    {
      var i :| 0 <= i < |r| && r[i].ptr != 0 && a == r[i].ptr;
      assert s[i] == r[i];
    }
  }

  /** The process's new records and entries after a successful malloc. */
  lemma MallocChangesRecords(st: State, o: map<word, Owner>, slot: nat, size: word)
    requires Inv(st, o) && slot in st.procs && Requestable(st.mem.table, size)
    requires KmallocAddress(st.mem.table, Blocks(size)) != 0 && IndexOf(st.procs[slot].records, 0, 0) >= 0
    ensures var ptr := KmallocAddress(st.mem.table, Blocks(size));
            var res := Malloc(st.mem, st.procs[slot].dir, st.procs[slot].records, size);
            && ptr !in o && res.ptr == ptr
            && RecordsChange(st, o, slot, res.mem, res.records, o[ptr := Of(slot, RecordKind)])
  {
    hide Sound, Pool, Footprint, Paged, RightSizes, OnlyOwnTables, MapTo, SpaceOf, RecordsValid, RecordsMapped,
      PagesOwned, RecordPointers, Kmalloc, Overruns, Blocks, InHeap, BLOCK_SIZE;
    var t, m, p, n := st.mem.table, st.mem.frames, st.procs[slot], Blocks(size);
    var ptr, k := KmallocAddress(t, n), IndexOf(p.records, 0, 0);
    assert ProcessOk(Pool(t), m, p);
    KmallocAdds(t, n);
    SpansAreInHeap(Kmalloc(t, n), ptr);
    MapOntoItself(m, p.dir, ptr, size, USER_WRITE_FLAGS);
    MapToOnlyOwnTables(m, p.dir, ptr, ptr, AlignAddress(Wrap(ptr + size)), USER_WRITE_FLAGS);
    RecordsAfterMalloc(Pool(t), p.records, k, ptr, size);
    PagesAfterMalloc(Pool(t), SpaceOf(m, p.dir), p.image.memory, p.stack, p.records, k, ptr, size, n);
    PointersAfterMalloc(p.records, k, ptr, size);
    assert forall a :: a in HeldBy(st, Of(slot, RecordKind)) <==> a in o && o[a] == Of(slot, RecordKind);
  }

  lemma MallocKeepsInv(st: State, o: map<word, Owner>, slot: nat, size: word)
    requires Inv(st, o) && slot in st.procs && Requestable(st.mem.table, size)
    ensures exists o' :: Inv(MallocStep(st, slot, size), o')
  {
    hide Sound, Pool, Paged, Held, Footprint, ProcessOk, Owns, MapTo, Kmalloc, KmallocAddress, Overruns, Blocks, InHeap,
      RecordsChange;
    var t, p, n := st.mem.table, st.procs[slot], Blocks(size);
    var ptr := KmallocAddress(t, n);
    KmallocAdds(t, n);
    assert st.procs[slot := p] == st.procs;
    if ptr == 0 {
      assert Inv(MallocStep(st, slot, size), o);
    } else if IndexOf(p.records, 0, 0) < 0 {
      KernelAllocKeepsInv(st, o, size);
      assert MallocStep(st, slot, size) == KernelAlloc(st, size);
    } else {
      MallocChangesRecords(st, o, slot, size);
      var res := Malloc(st.mem, p.dir, p.records, size);
      RecordsChangeKeepsInv(st, o, slot, res.mem, res.records, o[ptr := Of(slot, RecordKind)]);
      assert Inv(MallocStep(st, slot, size), o[ptr := Of(slot, RecordKind)]);
    }
  }

  lemma RecordFacts(pool: map<word, nat>, r: seq<Allocation>, k: int)
    requires RecordsValid(pool, r) && 0 <= k < |r| && r[k].ptr != 0
    ensures r[k].ptr in pool && pool[r[k].ptr] == Blocks(r[k].size) && 1 <= r[k].size <= 0xffff_e000
  {
    hide Blocks;
  }

  lemma OwnersAfterFree(o: map<word, Owner>, pool: map<word, nat>, slot: nat, ptr: word)
    requires o.Keys == pool.Keys && ptr in o && o[ptr] == Of(slot, RecordKind)
    ensures OnlyRecordsChange(o, o - {ptr}, pool, pool - {ptr}, slot)
  {
  }

  lemma FreeChangesRecords(st: State, o: map<word, Owner>, slot: nat, ptr: word)
    requires Inv(st, o) && slot in st.procs && ptr != 0 && RecordsInHeap(st.procs[slot].records)
    requires IndexOf(st.procs[slot].records, ptr, 0) >= 0
    ensures var (mem, r) := Free(st.mem, st.procs[slot].dir, st.procs[slot].records, ptr);
            && ptr in o && r == Unjoin(st.procs[slot].records, ptr)
            && RecordPointers(r) == RecordPointers(st.procs[slot].records) - {ptr}
            && Pool(mem.table) == Pool(st.mem.table) - {ptr}
            && RecordsChange(st, o, slot, mem, r, o - {ptr})
  {
    hide Sound, Pool, Footprint, Paged, RightSizes, OnlyOwnTables, MapTo, SpaceOf, RecordsMapped, PagesOwned,
      RecordPointers, Kfree, AddressToBlock, Blocks, InHeap, BLOCK_SIZE, RecordsValid, OnlyRecordsChange, Unjoin;
    var t, m, p := st.mem.table, st.mem.frames, st.procs[slot];
    var k := IndexOf(p.records, ptr, 0);
    assert ProcessOk(Pool(t), m, p);
    RecordFacts(Pool(t), p.records, k);
    SpansAreInHeap(t, ptr);
    KfreeRemoves(t, ptr);
    MapOntoItself(m, p.dir, ptr, p.records[k].size, 0);
    MapToOnlyOwnTables(m, p.dir, ptr, ptr, AlignAddress(Wrap(ptr + p.records[k].size)), 0);
    RecordsAfterFree(Pool(t), p.records, k);
    PointersAfterFree(Pool(t), p.records, k);
    RecordOwner(st, o, slot, k);
    PagesAfterFree(t, SpaceOf(m, p.dir), p.image.memory, p.stack, p.records, k);
    OwnersAfterFree(o, Pool(t), slot, ptr);
    assert forall a :: a in HeldBy(st, Of(slot, RecordKind)) <==> a in o && o[a] == Of(slot, RecordKind);
  }

  lemma RecordOwner(st: State, o: map<word, Owner>, slot: nat, k: int)
    requires Inv(st, o) && slot in st.procs && 0 <= k < |st.procs[slot].records| && st.procs[slot].records[k].ptr != 0
    ensures var ptr := st.procs[slot].records[k].ptr;
            && ptr in o && o[ptr] == Of(slot, RecordKind)
            && st.procs[slot].image.memory != ptr && st.procs[slot].stack != ptr
  {
    hide Sound, Pool, Footprint, Paged, ProcessOk;
    var p := st.procs[slot];
    assert p.records[k].ptr in HeldBy(st, Of(slot, RecordKind));
    assert p.image.memory in HeldBy(st, Of(slot, ImageKind)) && p.stack in HeldBy(st, Of(slot, StackKind));
  }

  /** process_free keeps the invariant, whatever non-null pointer it is given. */
  lemma FreeKeepsInv(st: State, o: map<word, Owner>, slot: nat, ptr: word) returns (o': map<word, Owner>)
    requires Inv(st, o) && slot in st.procs && ptr != 0 && RecordsInHeap(st.procs[slot].records)
    ensures Inv(FreeStep(st, slot, ptr), o')
    ensures o' == if ptr in RecordPointers(st.procs[slot].records) then o - {ptr} else o
    ensures Pool(FreeStep(st, slot, ptr).mem.table)
         == if ptr in RecordPointers(st.procs[slot].records) then Pool(st.mem.table) - {ptr} else Pool(st.mem.table)
  {
    hide Sound, Pool, Paged, Held, Footprint, ProcessOk, Owns, MapTo, Kfree, AddressToBlock, InHeap, RecordsChange;
    var p := st.procs[slot];
    assert st.procs[slot := p] == st.procs;
    if IndexOf(p.records, ptr, 0) < 0 {
      o' := o;
    } else {
      o' := o - {ptr};
      FreeChangesRecords(st, o, slot, ptr);
      var (mem, r) := Free(st.mem, p.dir, p.records, ptr);
      RecordsChangeKeepsInv(st, o, slot, mem, r, o');
      assert p.records[IndexOf(p.records, ptr, 0)].ptr in RecordPointers(p.records);
    }
  }

  /** In every state that satisfies the invariant, each process is ready for any of its operations. */
  lemma InvMeansReady(st: State, o: map<word, Owner>, s: nat)
    requires Inv(st, o) && s in st.procs
    ensures Ready(st.mem.frames, st.procs[s])
  {
    hide Sound, Pool, Paged, Footprint, ProcessOk, InHeap, Blocks, Ready, Held;
    var t, m, p := st.mem.table, st.mem.frames, st.procs[s];
    forall k, a | a in Held(m, p, k)
      ensures InHeap(a)
    {
      assert a in HeldBy(st, Of(s, k));
      SpansAreInHeap(t, a);
    }
    HeldMeansReady(m, p);
  }

  lemma HeldMeansReady(m: Frames, p: Process)
    requires Paged(m, p.dir) && forall k, a :: a in Held(m, p, k) ==> InHeap(a)
    ensures Ready(m, p)
  {
    hide InHeap;
    assert p.image.memory in Held(m, p, ImageKind) && p.stack in Held(m, p, StackKind)
      && p.task in Held(m, p, TaskKind);
    assert p.image.ElfImage? ==> p.image.file in Held(m, p, ElfKind);
    assert p.dir in Held(m, p, SpaceKind) && p.chunk in Held(m, p, SpaceKind);
    forall j | 0 <= j < ENTRIES
      ensures InHeap(TableAt(m, p.dir, j))
    {
      assert TableAt(m, p.dir, j) in Held(m, p, SpaceKind);
    }
    forall i | 0 <= i < |p.records| && p.records[i].ptr != 0
      ensures InHeap(p.records[i].ptr)
    {
      assert p.records[i].ptr in Held(m, p, RecordKind);
    }
  }

  // ---------- termination ----------

  lemma ZeroRecordsHoldNothing(r: seq<Allocation>)
    requires forall j :: 0 <= j < |r| ==> r[j].ptr == 0
    ensures RecordPointers(r) == {}
  {
  }

  lemma PointerRecorded(r: seq<Allocation>, i: int)
    requires 0 <= i < |r| && r[i].ptr != 0
    ensures r[i].ptr in RecordPointers(r)
  {
  }

  lemma RemoveOneThenRest<V>(m: map<word, V>, a: word, all: set<word>, rest: set<word>)
    requires a in all && rest == all - {a}
    ensures m - {a} - rest == m - all
  {
  }

  /** Freeing a process's records one by one frees them all, and nothing else. */
  lemma {:induction false} FreeRecordsKeepsInv(st: State, o: map<word, Owner>, slot: nat, i: nat)
    requires Inv(st, o) && slot in st.procs && RecordsInHeap(st.procs[slot].records) && i <= |st.procs[slot].records|
    requires forall j :: 0 <= j < i ==> st.procs[slot].records[j].ptr == 0
    ensures var (mem, r) := FreeRecords(st.mem, st.procs[slot].dir, st.procs[slot].records, i);
            && Inv(WithRecords(st, slot, mem, r, st.kernel), o - RecordPointers(st.procs[slot].records))
            && Pool(mem.table) == Pool(st.mem.table) - RecordPointers(st.procs[slot].records)
            && RecordPointers(r) == {} && mem.frames[st.procs[slot].dir] == st.mem.frames[st.procs[slot].dir]
    decreases |st.procs[slot].records| - i
  {
    hide Sound, Pool, Paged, Held, Footprint, ProcessOk, Owns, MapTo, Kfree, AddressToBlock, InHeap, RecordPointers,
      Inv, Free;
    var p := st.procs[slot];
    assert st.procs[slot := p] == st.procs;
    InvPaged(st, o, slot);
    if i == |p.records| {
      ZeroRecordsHoldNothing(p.records);
      assert o - {} == o && Pool(st.mem.table) - {} == Pool(st.mem.table);
    } else if p.records[i].ptr == 0 {
      FreeRecordsKeepsInv(st, o, slot, i + 1);
    } else {
      var ptr := p.records[i].ptr;
      PointerRecorded(p.records, i);
      FreeOneRecord(st, o, slot, i);
      var st1 := FreeStep(st, slot, ptr);
      FreeRecordsKeepsInv(st1, o - {ptr}, slot, i + 1);
      var (mem, r) := FreeRecords(st1.mem, p.dir, st1.procs[slot].records, i + 1);
      assert WithRecords(st1, slot, mem, r, st.kernel) == WithRecords(st, slot, mem, r, st.kernel);
      var rest := RecordPointers(st1.procs[slot].records);
      RemoveOneThenRest(o, ptr, RecordPointers(p.records), rest);
      RemoveOneThenRest(Pool(st.mem.table), ptr, RecordPointers(p.records), rest);
    }
  }

  lemma InvPaged(st: State, o: map<word, Owner>, slot: nat)
    requires Inv(st, o) && slot in st.procs
    ensures Paged(st.mem.frames, st.procs[slot].dir)
  {
    hide Sound, Pool, ProcessOk, Owns, Paged;
  }

  lemma FreeOneRecord(st: State, o: map<word, Owner>, slot: nat, i: nat)
    requires Inv(st, o) && slot in st.procs && RecordsInHeap(st.procs[slot].records) && i < |st.procs[slot].records|
    requires st.procs[slot].records[i].ptr != 0
    ensures var ptr := st.procs[slot].records[i].ptr;
            var (mem, r) := Free(st.mem, st.procs[slot].dir, st.procs[slot].records, ptr);
            && r == Unjoin(st.procs[slot].records, ptr)
            && Inv(FreeStep(st, slot, ptr), o - {ptr})
            && Pool(mem.table) == Pool(st.mem.table) - {ptr}
            && RecordPointers(r) == RecordPointers(st.procs[slot].records) - {ptr}
  {
    hide Sound, Pool, Paged, Held, Footprint, ProcessOk, Owns, MapTo, Kfree, AddressToBlock, InHeap, RecordsChange,
      RecordPointers, Free;
    var ptr := st.procs[slot].records[i].ptr;
    PointerRecorded(st.procs[slot].records, i);
    FreeChangesRecords(st, o, slot, ptr);
    var o' := FreeKeepsInv(st, o, slot, ptr);
  }

  /** Freeing records writes only the process's own tables. */
  lemma {:induction false} FreeRecordsOnlyOwnTables(mem: Memory, d: word, r: seq<Allocation>, i: nat)
    requires Paged(mem.frames, d) && RecordsInHeap(r) && i <= |r|
    ensures OnlyOwnTables(mem.frames, FreeRecords(mem, d, r, i).0.frames, d)
    decreases |r| - i
  {
    hide Paged, OnlyOwnTables, Free, RecordsInHeap;
    if i == |r| {
      SameTables(mem.frames, d);
    } else if r[i].ptr == 0 {
      FreeRecordsOnlyOwnTables(mem, d, r, i + 1);
    } else {
      var (next, s) := Free(mem, d, r, r[i].ptr);
      FreeOnlyOwnTables(mem, d, r, r[i].ptr);
      FreeRecordsOnlyOwnTables(next, d, s, i + 1);
      TablesChain(mem.frames, next.frames, FreeRecords(next, d, s, i + 1).0.frames, d);
    }
  }

  lemma FreeOnlyOwnTables(mem: Memory, d: word, r: seq<Allocation>, ptr: word)
    requires Paged(mem.frames, d) && RecordsInHeap(r) && ptr != 0
    ensures OnlyOwnTables(mem.frames, Free(mem, d, r, ptr).0.frames, d)
  {
    hide Paged, OnlyOwnTables, MapTo, Kfree, AddressToBlock, InHeap, Unjoin;
    var index := IndexOf(r, ptr, 0);
    SameTables(mem.frames, d);
    if index >= 0 {
      MapToOnlyOwnTables(mem.frames, d, ptr, ptr, AlignAddress(Wrap(ptr + r[index].size)), 0);
    }
  }

  /** Everything a process holds except its own struct and its records. */
  ghost function Fixtures(m: Frames, p: Process): set<word>
    requires Paged(m, p.dir)
  {
    Held(m, p, ImageKind) + Held(m, p, ElfKind) + {p.stack} + SpaceBlocks(m, p.dir, p.chunk) + {p.task}
  }

  ghost function AllHeld(m: Frames, p: Process): set<word>
    requires Paged(m, p.dir)
  {
    Fixtures(m, p) + {p.self} + RecordPointers(p.records)
  }

  /** The process's blocks are live and all different. */
  ghost predicate FixturesApart(pool: map<word, nat>, m: Frames, p: Process) {
    && Paged(m, p.dir) && p.chunk !in Footprint(m, p.dir)
    && Fixtures(m, p) <= pool.Keys && p.self !in Fixtures(m, p)
    && (p.image.ElfImage? ==> p.image.file != p.image.memory && p.image.file != p.stack && p.image.file != p.task)
    && p.image.memory != p.stack && p.image.memory != p.task && p.stack != p.task
    && SpaceBlocks(m, p.dir, p.chunk) !! Held(m, p, ImageKind) + Held(m, p, ElfKind) + {p.stack} + {p.task}
  }

  lemma InvKeepsApart(st: State, o: map<word, Owner>, s: nat)
    requires Inv(st, o) && s in st.procs
    ensures FixturesApart(Pool(st.mem.table), st.mem.frames, st.procs[s])
  {
    InvOwnsFixtures(st, o, s);
    InvSizes(st, o, s);
    hide Sound, Pool, Paged, SpaceBlocks, ProcessOk, Footprint, RightSizes, FixturesApart, OwnsFixtures;
    OwnersKeepApart(o, s, Pool(st.mem.table), st.mem.frames, st.procs[s]);
  }

  lemma OwnersKeepApart(o: map<word, Owner>, s: nat, pool: map<word, nat>, m: Frames, p: Process)
    requires Paged(m, p.dir) && p.chunk !in Footprint(m, p.dir) && o.Keys == pool.Keys && OwnsFixtures(o, s, m, p)
    ensures FixturesApart(pool, m, p)
  {
    hide Paged, SpaceBlocks, Footprint;
  }

  lemma ProgramFreed(t: Table, m: Frames, p: Process)
    requires Sound(t) && FixturesApart(Pool(t), m, p) && InHeap(p.image.memory)
    requires (p.image.ElfImage? ==> InHeap(p.image.file))
    ensures Sound(FreeProgram(t, p.image))
    ensures Pool(FreeProgram(t, p.image)) == Pool(t) - (Held(m, p, ImageKind) + Held(m, p, ElfKind))
  {
    hide Sound, Pool, Paged, SpaceBlocks, Footprint, Kfree, AddressToBlock, InHeap;
    assert p.image.memory in Fixtures(m, p);
    KfreeRemoves(t, p.image.memory);
    if p.image.ElfImage? {
      assert p.image.file in Fixtures(m, p);
      KfreeRemoves(Kfree(t, p.image.memory), p.image.file);
      assert Pool(t) - {p.image.memory} - {p.image.file} == Pool(t) - {p.image.memory, p.image.file};
    }
  }

  /** The part of termination after the records are gone returns exactly the fixtures. */
  lemma FixturesFreed(t: Table, m: Frames, p: Process)
    requires Sound(t) && FixturesApart(Pool(t), m, p) && Ready(m, p)
    ensures var u := FreeSpace(Kfree(FreeProgram(t, p.image), p.stack), m, p.dir, p.chunk);
            AddressToBlock(HEAP_ADDRESS, p.task) >= 0 && AddressToBlock(HEAP_ADDRESS, p.stack) >= 0
            && Sound(Kfree(u, p.task)) && Pool(Kfree(u, p.task)) == Pool(t) - Fixtures(m, p)
  {
    hide Sound, Pool, Paged, SpaceBlocks, Footprint, Kfree, AddressToBlock, InHeap, TablesInHeap, FreeProgram,
      FreeSpace, Held;
    var image, space := Held(m, p, ImageKind) + Held(m, p, ElfKind), SpaceBlocks(m, p.dir, p.chunk);
    ProgramFreed(t, m, p);
    var t1 := FreeProgram(t, p.image);
    ImageIsApart(t, m, p);
    KfreeRemoves(t1, p.stack);
    var t2 := Kfree(t1, p.stack);
    FreeSpaceFacts(t2, m, p.dir, p.chunk);
    var t3 := FreeSpace(t2, m, p.dir, p.chunk);
    KfreeRemoves(t3, p.task);
    RemovedInOrder(Pool(t), image, p.stack, space, p.task);
  }

  lemma ImageIsApart(t: Table, m: Frames, p: Process)
    requires FixturesApart(Pool(t), m, p)
    ensures p.stack !in Held(m, p, ImageKind) + Held(m, p, ElfKind)
    ensures p.task !in Held(m, p, ImageKind) + Held(m, p, ElfKind)
    ensures p.stack in Fixtures(m, p) && p.task in Fixtures(m, p) && SpaceBlocks(m, p.dir, p.chunk) <= Fixtures(m, p)
  {
    hide Pool, Paged, SpaceBlocks, Footprint;
  }

  lemma RemovedInOrder<V>(pool: map<word, V>, image: set<word>, stack: word, space: set<word>, task: word)
    ensures pool - image - {stack} - space - {task} == pool - (image + {stack} + space + {task})
  {
  }

  /** process_terminate of slot `slot`: the slot becomes free, the process struct stays allocated. */
  ghost function TerminateStep(st: State, slot: nat): State
    requires slot in st.procs && Ready(st.mem.frames, st.procs[slot])
  {
    State(Terminate(st.mem, st.procs[slot]), st.procs - {slot}, st.kernel + {st.procs[slot].self})
  }

  lemma SelfAgrees(m: Frames, d: word)
    requires Paged(m, d)
    ensures Agree(m, m, Footprint(m, d))
  {
  }

  lemma OwnersOf(st: State, o: map<word, Owner>, w: Owner, a: word)
    requires AllPaged(st) && Owns(st, o)
    ensures a in HeldBy(st, w) <==> a in o && o[a] == w
  {
    hide Pool, Held, Paged;
  }

  lemma OwnsIntro(st: State, o: map<word, Owner>)
    requires AllPaged(st) && o.Keys == Pool(st.mem.table).Keys
    requires forall w, a :: a in HeldBy(st, w) <==> a in o && o[a] == w
    ensures Owns(st, o)
  {
    hide Pool, Held, Paged, HeldBy;
  }

  /** Slot `slot` owns exactly its struct `self` and the blocks `fixtures`. */
  ghost predicate SlotOwns(o: map<word, Owner>, slot: nat, self: word, fixtures: set<word>) {
    && self in o && self !in fixtures && o[self] == Of(slot, StructKind)
    && (forall a :: a in o && o[a].Of? && o[a].slot == slot ==> a == self || a in fixtures)
    && (forall a :: a in fixtures ==> a in o && o[a].Of? && o[a].slot == slot)
  }

  lemma FixturesOwner(o: map<word, Owner>, s: nat, m: Frames, p: Process, a: word)
    requires Paged(m, p.dir) && OwnsFixtures(o, s, m, p) && a in Fixtures(m, p)
    ensures a in o && o[a].Of? && o[a].slot == s
  {
    hide Paged, SpaceBlocks;
  }

  lemma HeldIsFixture(m: Frames, p: Process, k: Kind, a: word)
    requires Paged(m, p.dir) && RecordPointers(p.records) == {} && a in Held(m, p, k)
    ensures a == p.self || a in Fixtures(m, p)
  {
    hide Paged, SpaceBlocks, RecordPointers;
  }

  lemma SlotWithoutRecords(st: State, o: map<word, Owner>, slot: nat)
    requires Inv(st, o) && slot in st.procs && RecordPointers(st.procs[slot].records) == {}
    requires Paged(st.mem.frames, st.procs[slot].dir)
    ensures o.Keys == Pool(st.mem.table).Keys
    ensures SlotOwns(o, slot, st.procs[slot].self, Fixtures(st.mem.frames, st.procs[slot]))
  {
    hide Sound, Pool, Paged, Footprint, ProcessOk, SpaceBlocks, FixturesApart, Fixtures, Held, RecordPointers;
    var m, p := st.mem.frames, st.procs[slot];
    InvOwnsFixtures(st, o, slot);
    InvKeepsApart(st, o, slot);
    SelfIsApart(Pool(st.mem.table), m, p);
    forall a | a in o && o[a].Of? && o[a].slot == slot
      ensures a == p.self || a in Fixtures(m, p)
    {
      OwnersOf(st, o, o[a], a);
      HeldIsFixture(m, p, o[a].kind, a);
    }
    forall a | a in Fixtures(m, p)
      ensures a in o && o[a].Of? && o[a].slot == slot
    {
      FixturesOwner(o, slot, m, p, a);
    }
  }

  lemma SelfIsApart(pool: map<word, nat>, m: Frames, p: Process)
    requires FixturesApart(pool, m, p)
    ensures p.self !in Fixtures(m, p)
  {
    hide Paged, Footprint, Fixtures;
  }

  lemma DropOwner(o: map<word, Owner>, slot: nat, self: word, fixtures: set<word>, w: Owner, a: word)
    requires SlotOwns(o, slot, self, fixtures)
    ensures var o' := (o - fixtures)[self := Kernel];
            a in o' && o'[a] == w <==>
              if w == Kernel then (a in o && o[a] == w) || a == self else w.slot != slot && a in o && o[a] == w
  {
  }

  ghost function Dropped(st: State, slot: nat, t: Table): State
    requires slot in st.procs
  {
    State(st.mem.(table := t), st.procs - {slot}, st.kernel + {st.procs[slot].self})
  }

  lemma DropKeepsProcess(st: State, o: map<word, Owner>, slot: nat, t: Table, fixtures: set<word>, s: nat)
    requires Inv(st, o) && slot in st.procs && s in st.procs && s != slot
    requires SlotOwns(o, slot, st.procs[slot].self, fixtures) && Pool(t) == Pool(st.mem.table) - fixtures
    ensures ProcessOk(Pool(t), st.mem.frames, st.procs[s]) && Paged(st.mem.frames, st.procs[s].dir)
  {
    hide Sound, Pool, Paged, Footprint, ProcessOk, Held;
    InvPaged(st, o, s);
    SelfAgrees(st.mem.frames, st.procs[s].dir);
    OtherProcess(st, o, s, Pool(t), st.mem.frames);
  }

  /** Once a process has no records left, dropping it and its fixtures keeps the invariant. */
  lemma DropKeepsInv(st: State, o: map<word, Owner>, slot: nat, t: Table)
    requires Inv(st, o) && slot in st.procs && RecordPointers(st.procs[slot].records) == {} && Sound(t)
    requires Paged(st.mem.frames, st.procs[slot].dir)
    requires Pool(t) == Pool(st.mem.table) - Fixtures(st.mem.frames, st.procs[slot])
    ensures exists o' :: Inv(Dropped(st, slot, t), o')
  {
    hide Sound, Pool, Paged, Footprint, ProcessOk, Fixtures, Held, Owns, SlotOwns, RecordPointers;
    var fixtures, self := Fixtures(st.mem.frames, st.procs[slot]), st.procs[slot].self;
    var o', st' := (o - fixtures)[self := Kernel], Dropped(st, slot, t);
    SlotWithoutRecords(st, o, slot);
    forall s | s in st'.procs
      ensures ProcessOk(Pool(t), st.mem.frames, st'.procs[s]) && Paged(st.mem.frames, st'.procs[s].dir)
      ensures s < MAX_PROCESSES
    {
      DropKeepsProcess(st, o, slot, t, fixtures, s);
    }
    forall w, a: word
      ensures a in HeldBy(st', w) <==> a in o' && o'[a] == w
    {
      OwnersOf(st, o, w, a);
      DropOwner(o, slot, self, fixtures, w, a);
    }
    DropKeys(o, Pool(st.mem.table), slot, self, fixtures);
    OwnsIntro(st', o');
    assert Inv(st', o');
  }

  lemma DropKeys(o: map<word, Owner>, pool: map<word, nat>, slot: nat, self: word, fixtures: set<word>)
    requires o.Keys == pool.Keys && SlotOwns(o, slot, self, fixtures)
    ensures (o - fixtures)[self := Kernel].Keys == (pool - fixtures).Keys
  {
  }

  lemma SameFixtures(m: Frames, n: Frames, p: Process, r: seq<Allocation>)
    requires Paged(m, p.dir) && Paged(n, p.dir) && n[p.dir] == m[p.dir]
    ensures Fixtures(n, p.(records := r)) == Fixtures(m, p)
  {
    assert TablesFrom(n, p.dir, 0) == TablesFrom(m, p.dir, 0) by {
      assert forall i :: 0 <= i < ENTRIES ==> TableAt(n, p.dir, i) == TableAt(m, p.dir, i);
    }
  }

  /** Termination up to the point where all records are freed. */
  ghost function Unrecorded(st: State, slot: nat): State
    requires slot in st.procs && Ready(st.mem.frames, st.procs[slot])
  {
    var (mem, r) := FreeRecords(st.mem, st.procs[slot].dir, st.procs[slot].records, 0);
    WithRecords(st, slot, mem, r, st.kernel)
  }

  lemma RecordsGone(st: State, o: map<word, Owner>, slot: nat) returns (o': map<word, Owner>)
    requires Inv(st, o) && slot in st.procs && Ready(st.mem.frames, st.procs[slot])
    ensures var p, u := st.procs[slot], Unrecorded(st, slot);
            && Inv(u, o') && Sound(u.mem.table) && RecordPointers(u.procs[slot].records) == {}
            && Pool(u.mem.table) == Pool(st.mem.table) - RecordPointers(p.records)
            && slot in u.procs && Paged(st.mem.frames, p.dir) && Paged(u.mem.frames, u.procs[slot].dir)
            && Fixtures(u.mem.frames, u.procs[slot]) == Fixtures(st.mem.frames, p)
            && FixturesApart(Pool(u.mem.table), u.mem.frames, u.procs[slot])
            && Ready(u.mem.frames, u.procs[slot])
  {
    hide Sound, Pool, Paged, Footprint, ProcessOk, Fixtures, Held, Owns, RecordPointers, Inv, FixturesApart,
      FreeRecords, InHeap, TablesInHeap;
    var p := st.procs[slot];
    InvPaged(st, o, slot);
    FreeRecordsKeepsInv(st, o, slot, 0);
    var u := Unrecorded(st, slot);
    o' := o - RecordPointers(p.records);
    InvMeansReady(u, o', slot);
    InvPaged(u, o', slot);
    InvKeepsApart(u, o', slot);
    InvSound(u, o');
    SameFixtures(st.mem.frames, u.mem.frames, p, u.procs[slot].records);
  }

  lemma TerminateIsDrop(st: State, slot: nat)
    requires slot in st.procs && Ready(st.mem.frames, st.procs[slot])
    ensures TerminateStep(st, slot) == Dropped(Unrecorded(st, slot), slot, Terminate(st.mem, st.procs[slot]).table)
  {
    hide Ready, FreeRecords, Kfree, FreeProgram, FreeSpace, AddressToBlock;
    assert Unrecorded(st, slot).procs - {slot} == st.procs - {slot};
  }

  lemma TerminateFreesFixtures(st: State, slot: nat)
    requires slot in st.procs && Ready(st.mem.frames, st.procs[slot])
    requires var u := Unrecorded(st, slot);
             Sound(u.mem.table) && FixturesApart(Pool(u.mem.table), u.mem.frames, u.procs[slot])
               && Ready(u.mem.frames, u.procs[slot])
    ensures var u, t := Unrecorded(st, slot), Terminate(st.mem, st.procs[slot]).table;
            Sound(t) && Pool(t) == Pool(u.mem.table) - Fixtures(u.mem.frames, u.procs[slot])
  {
    hide Sound, Pool, Paged, Footprint, Fixtures, Held, FixturesApart, Kfree, FreeProgram, FreeSpace, AddressToBlock,
      FreeRecords, InHeap, TablesInHeap;
    var u := Unrecorded(st, slot);
    FixturesFreed(u.mem.table, u.mem.frames, u.procs[slot]);
  }

  /**
   Termination keeps the invariant and gives back every block of the process, whatever its
   role, except the process struct itself.
   */
  lemma TerminateKeepsInv(st: State, o: map<word, Owner>, slot: nat)
    requires Inv(st, o) && slot in st.procs
    ensures Ready(st.mem.frames, st.procs[slot])
    ensures exists o' :: Inv(TerminateStep(st, slot), o')
    ensures Pool(TerminateStep(st, slot).mem.table)
         == Pool(st.mem.table) - (Fixtures(st.mem.frames, st.procs[slot]) + RecordPointers(st.procs[slot].records))
  {
    hide Sound, Pool, Paged, Footprint, Fixtures, RecordPointers, Inv, FixturesApart, Ready, Terminate, TerminateStep,
      Unrecorded;
    InvMeansReady(st, o, slot);
    var o1 := RecordsGone(st, o, slot);
    var t := Terminate(st.mem, st.procs[slot]).table;
    TerminateFreesFixtures(st, slot);
    DropKeepsInv(Unrecorded(st, slot), o1, slot, t);
    TerminateIsDrop(st, slot);
    RemovedTwice(Pool(st.mem.table), RecordPointers(st.procs[slot].records), Fixtures(st.mem.frames, st.procs[slot]));
  }

  /** Termination leaves the frames of every other process alone. */
  lemma TerminateKeepsOthers(st: State, o: map<word, Owner>, slot: nat, s: nat)
    requires Inv(st, o) && slot in st.procs && Ready(st.mem.frames, st.procs[slot]) && s in st.procs && s != slot
    ensures Paged(st.mem.frames, st.procs[s].dir)
    ensures Agree(st.mem.frames, TerminateStep(st, slot).mem.frames, Footprint(st.mem.frames, st.procs[s].dir))
  {
    var p := st.procs[slot];
    InvPaged(st, o, slot);
    InvPaged(st, o, s);
    hide Sound, Pool, Paged, Footprint, ProcessOk, Inv, FreeRecords, Kfree, FreeProgram, FreeSpace, AddressToBlock,
      InHeap, TablesInHeap, OnlyOwnTables, Agree;
    FreeRecordsOnlyOwnTables(st.mem, p.dir, p.records, 0);
    OthersAgree(st, o, slot, FreeRecords(st.mem, p.dir, p.records, 0).0.frames, s);
  }

  lemma InvSound(st: State, o: map<word, Owner>)
    requires Inv(st, o)
    ensures Sound(st.mem.table)
  {
    hide Sound, Pool, Paged, ProcessOk, Owns;
  }

  lemma RemovedTwice<V>(pool: map<word, V>, a: set<word>, b: set<word>)
    ensures pool - a - b == pool - (b + a)
  {
  }

  // ---------- loading ----------

  /** Every program header stays inside the pages of the file's copy in memory; no file is near 4 GB. */
  ghost predicate HeadersInside(program: Program) {
    && program.size <= 0xffff_e000
    && forall h :: h in HeadersOf(program) ==> 0 <= h.offset && h.offset + h.memsz <= Blocks(program.size) * BLOCK_SIZE
  }

  ghost function Added(st: State, slot: nat, loaded: Loaded): State {
    State(loaded.mem, st.procs[slot := loaded.process], st.kernel + loaded.leaked)
  }

  /** process_load_for_slot when it succeeds; what the loader leaks stays the kernel's. */
  ghost function LoadStep(st: State, slot: nat, program: Program): State
    requires Sound(st.mem.table) && Load(st.mem, program).Some?
  {
    Added(st, slot, Load(st.mem, program).value)
  }

  lemma HeaderSpan(memory: word, n: nat, h: Header)
    requires InHeap(memory) && memory + n * BLOCK_SIZE <= HEAP_ADDRESS + HEAP_BLOCKS * BLOCK_SIZE
    requires 0 <= h.offset && h.offset + h.memsz <= n * BLOCK_SIZE
    ensures var phys := Wrap(memory + h.offset);
            memory <= Mask(phys) && AlignAddress(Wrap(phys + h.memsz)) <= memory + n * BLOCK_SIZE
  {
  }

  lemma {:induction false} HeadersOwned(m: Frames, d: word, memory: word, hs: seq<Header>, pool: map<word, nat>,
                                        stack: word, r: seq<Allocation>)
    requires Paged(m, d) && memory in pool && InHeap(memory)
    requires memory + pool[memory] * BLOCK_SIZE <= HEAP_ADDRESS + HEAP_BLOCKS * BLOCK_SIZE
    requires forall h :: h in hs ==> 0 <= h.offset && h.offset + h.memsz <= pool[memory] * BLOCK_SIZE
    requires PagesOwned(pool, SpaceOf(m, d), memory, stack, r)
    ensures PagesOwned(pool, SpaceOf(MapHeaders(m, d, memory, hs).0, d), memory, stack, r)
    ensures OnlyOwnTables(m, MapHeaders(m, d, memory, hs).0, d)
    decreases |hs|
  {
    hide PagesOwned, SpaceOf, Paged, MapTo, OnlyOwnTables, InHeap;
    if hs == [] {
      SameTables(m, d);
    } else {
      var h := hs[0];
      var phys := Wrap(memory + h.offset);
      var lower, end := Mask(phys), AlignAddress(Wrap(phys + h.memsz));
      var flags := if h.writable then USER_WRITE_FLAGS else USER_FLAGS;
      HeaderSpan(memory, pool[memory], h);
      MapOwnFrames(m, d, Mask(h.vaddr), lower, end, flags, pool, memory, stack, r);
      MapToOnlyOwnTables(m, d, Mask(h.vaddr), lower, end, flags);
      var (n, res) := MapTo(m, d, Mask(h.vaddr), lower, end, flags);
      if res >= 0 {
        HeadersOwned(n, d, memory, hs[1..], pool, stack, r);
        TablesChain(m, n, MapHeaders(n, d, memory, hs[1..]).0, d);
      }
    }
  }

  lemma SameTables(m: Frames, d: word)
    requires Paged(m, d)
    ensures OnlyOwnTables(m, m, d)
  {
  }

  lemma TablesChain(m: Frames, n: Frames, k: Frames, d: word)
    requires Paged(m, d) && Paged(n, d) && OnlyOwnTables(m, n, d) && OnlyOwnTables(n, k, d)
    ensures OnlyOwnTables(m, k, d)
  {
    hide Paged, Footprint;
  }

  lemma NothingWritableYet(live: set<word>, m: Frames, n: Frames, d: word, chunk: word, pool: map<word, nat>,
                           image: word, stack: word, r: seq<Allocation>)
    requires FreshSpace(live, m, USER_FLAGS, n, d, chunk)
    ensures Paged(n, d) && PagesOwned(pool, SpaceOf(n, d), image, stack, r)
  {
    forall q | 0 <= q < PAGES
      ensures !Writable(SpaceOf(n, d)[q])
    {
      NewSpaceIsIdentity(live, m, USER_FLAGS, n, d, chunk, q * PAGE_SIZE);
    }
  }

  lemma SpanOfBlocks(pool: map<word, nat>, p: word, n: nat, end: word)
    requires p in pool && pool[p] == n && end <= p + n * BLOCK_SIZE
    ensures forall a: word :: p <= a < end ==> Spans(pool, p, a)
  {
  }

  lemma StackOwned(m: Frames, d: word, stack: word, pool: map<word, nat>, image: word, r: seq<Allocation>)
    requires Paged(m, d) && stack in pool && pool[stack] == Blocks(STACK_SIZE) && InHeap(stack)
    requires stack + pool[stack] * BLOCK_SIZE <= HEAP_ADDRESS + HEAP_BLOCKS * BLOCK_SIZE
    requires PagesOwned(pool, SpaceOf(m, d), image, stack, r)
    ensures PagesOwned(pool, SpaceOf(MapStack(m, d, stack), d), image, stack, r)
    ensures OnlyOwnTables(m, MapStack(m, d, stack), d)
  {
    hide PagesOwned, SpaceOf, Paged, MapTo, OnlyOwnTables, InHeap;
    var end := AlignAddress(Wrap(stack + STACK_SIZE));
    EndOfBlocks(stack, STACK_SIZE);
    SpanOfBlocks(pool, stack, pool[stack], end);
    MapOwnFrames(m, d, STACK_END, stack, end, USER_WRITE_FLAGS, pool, image, stack, r);
    MapToOnlyOwnTables(m, d, STACK_END, stack, end, USER_WRITE_FLAGS);
  }

  lemma BinaryOwned(m: Frames, d: word, image: word, size: word, pool: map<word, nat>, stack: word, r: seq<Allocation>)
    requires Paged(m, d) && image in pool && pool[image] == Blocks(size) && InHeap(image) && 1 <= size <= 0xffff_e000
    requires image + pool[image] * BLOCK_SIZE <= HEAP_ADDRESS + HEAP_BLOCKS * BLOCK_SIZE
    requires PagesOwned(pool, SpaceOf(m, d), image, stack, r)
    ensures PagesOwned(pool, SpaceOf(MapBinary(m, d, image, size), d), image, stack, r)
    ensures OnlyOwnTables(m, MapBinary(m, d, image, size), d)
  {
    hide PagesOwned, SpaceOf, Paged, MapTo, OnlyOwnTables, InHeap, Blocks;
    var end := AlignAddress(Wrap(image + size));
    EndOfBlocks(image, size);
    SpanOfBlocks(pool, image, pool[image], end);
    MapOwnFrames(m, d, PROGRAM_ADDRESS, image, end, USER_WRITE_FLAGS, pool, image, stack, r);
    MapToOnlyOwnTables(m, d, PROGRAM_ADDRESS, image, end, USER_WRITE_FLAGS);
  }

  /** The blocks that a process's own frames come from, as the mapping code needs them. */
  ghost predicate ImageInPool(pool: map<word, nat>, image: Image, stack: word) {
    && image.memory in pool && pool[image.memory] == Blocks(image.size) && InHeap(image.memory)
    && image.memory + pool[image.memory] * BLOCK_SIZE <= HEAP_ADDRESS + HEAP_BLOCKS * BLOCK_SIZE
    && stack in pool && pool[stack] == Blocks(STACK_SIZE) && InHeap(stack)
    && stack + pool[stack] * BLOCK_SIZE <= HEAP_ADDRESS + HEAP_BLOCKS * BLOCK_SIZE
    && 1 <= image.size <= 0xffff_e000
  }

  /** Mapping a program makes nothing writeable but its image and its stack. */
  lemma MapMemoryOwned(m: Frames, d: word, image: Image, hs: seq<Header>, stack: word, pool: map<word, nat>,
                       r: seq<Allocation>)
    requires Paged(m, d) && ImageInPool(pool, image, stack)
    requires forall h :: h in hs ==> 0 <= h.offset && h.offset + h.memsz <= Blocks(image.size) * BLOCK_SIZE
    requires PagesOwned(pool, SpaceOf(m, d), image.memory, stack, r)
    ensures PagesOwned(pool, SpaceOf(MapMemory(m, d, image, hs, stack).0, d), image.memory, stack, r)
    ensures OnlyOwnTables(m, MapMemory(m, d, image, hs, stack).0, d)
  {
    hide PagesOwned, SpaceOf, Paged, MapTo, MapBinary, MapHeaders, MapStack, OnlyOwnTables, InHeap, Blocks;
    match image
    case BinaryImage(memory, size) =>
      var n := MapBinary(m, d, memory, size);
      BinaryOwned(m, d, memory, size, pool, stack, r);
      StackOwned(n, d, stack, pool, memory, r);
      TablesChain(m, n, MapStack(n, d, stack), d);
    case ElfImage(_, memory, size) =>
      var (n, res) := MapHeaders(m, d, memory, hs);
      HeadersOwned(m, d, memory, hs, pool, stack, r);
      if res >= 0 {
        StackOwned(n, d, stack, pool, memory, r);
        TablesChain(m, n, MapStack(n, d, stack), d);
      }
  }

  /** Owners after a load: the leaked blocks go to the kernel, every other new block to the process, by role. */
  ghost function LoadOwners(o: map<word, Owner>, pool': map<word, nat>, slot: nat, m: Frames, p: Process,
                            leaked: set<word>): map<word, Owner>
    requires Paged(m, p.dir)
  {
    map a | a in pool' :: if a in o then o[a] else if a in leaked then Kernel else Of(slot, KindOf(m, p, a))
  }

  ghost function KindOf(m: Frames, p: Process, a: word): Kind
    requires Paged(m, p.dir)
  {
    if exists k :: a in Held(m, p, k) then
      var k :| a in Held(m, p, k);
      k
    else StructKind
  }

  lemma LoadOwner(o: map<word, Owner>, pool: map<word, nat>, pool': map<word, nat>, slot: nat, m: Frames, p: Process,
                  leaked: set<word>, w: Owner, a: word)
    requires Paged(m, p.dir) && o.Keys == pool.Keys && FreshProcess(pool, pool', m, p, leaked)
    requires forall b :: b in o && o[b].Of? ==> o[b].slot != slot
    ensures var o' := LoadOwners(o, pool', slot, m, p, leaked);
            a in o' && o'[a] == w <==>
              if w.Of? && w.slot == slot then a in Held(m, p, w.kind)
              else (a in o && o[a] == w) || (w == Kernel && a in leaked)
  {
    hide Paged, Held, RightSizes, Footprint;
    if exists k :: a in Held(m, p, k) {
      var k := KindOf(m, p, a);
      assert a in Held(m, p, k);
    }
  }

  /** What a load that succeeds does, in one place. */
  ghost predicate LoadFacts(st: State, loaded: Loaded) {
    var pool, pool', n, p := Pool(st.mem.table), Pool(loaded.mem.table), loaded.mem.frames, loaded.process;
    && Sound(loaded.mem.table) && Paged(n, p.dir) && p.records == EmptyRecords()
    && FreshProcess(pool, pool', n, p, loaded.leaked)
    && (forall f :: f in st.mem.frames && f in pool ==> f in n && n[f] == st.mem.frames[f])
    && PagesOwned(pool', SpaceOf(n, p.dir), p.image.memory, p.stack, p.records)
  }

  lemma LoadIsFresh(st: State, program: Program)
    requires Sound(st.mem.table) && Load(st.mem, program).Some? && HeadersInside(program)
    ensures LoadFacts(st, Load(st.mem, program).value)
  {
    hide Sound, Pool, PagesOwned, SpaceOf, Paged, MapMemory, OnlyOwnTables, InHeap, Blocks, FreshProcess, FreshSpace,
      AllocateProcess, EmptyRecords;
    var a := AllocateProcess(st.mem, program).value;
    var p := a.process;
    AllocateProcessIsFresh(st.mem, program);
    ImageIsInPool(Pool(st.mem.table), a.mem.table, a.mem.frames, p, a.leaked);
    NothingWritableYet(Pool(st.mem.table).Keys, st.mem.frames, a.mem.frames, p.dir, p.chunk, Pool(a.mem.table),
      p.image.memory, p.stack, p.records);
    MapMemoryOwned(a.mem.frames, p.dir, p.image, HeadersOf(program), p.stack, Pool(a.mem.table), p.records);
    var n := MapMemory(a.mem.frames, p.dir, p.image, HeadersOf(program), p.stack).0;
    FreshAfterMapping(Pool(st.mem.table), Pool(a.mem.table), a.mem.frames, n, p, a.leaked);
    FramesKept(Pool(st.mem.table).Keys, st.mem.frames, a.mem.frames, n, p.dir, p.chunk);
  }

  lemma ImageIsInPool(pool: map<word, nat>, t: Table, m: Frames, p: Process, leaked: set<word>)
    requires Sound(t) && Paged(m, p.dir) && FreshProcess(pool, Pool(t), m, p, leaked) && p.image.size <= 0xffff_e000
    ensures ImageInPool(Pool(t), p.image, p.stack)
  {
    hide Sound, Pool, Paged, Held, Footprint, InHeap;
    SpansAreInHeap(t, p.image.memory);
    SpansAreInHeap(t, p.stack);
  }

  lemma FreshAfterMapping(pool: map<word, nat>, pool': map<word, nat>, m: Frames, n: Frames, p: Process,
                          leaked: set<word>)
    requires Paged(m, p.dir) && FreshProcess(pool, pool', m, p, leaked) && OnlyOwnTables(m, n, p.dir)
    ensures FreshProcess(pool, pool', n, p, leaked)
  {
    hide Paged, Footprint, Blocks;
    assert forall k :: Held(n, p, k) == Held(m, p, k);
  }

  lemma FramesKept(live: set<word>, m: Frames, n: Frames, k: Frames, d: word, chunk: word)
    requires FreshSpace(live, m, USER_FLAGS, n, d, chunk) && OnlyOwnTables(n, k, d)
    ensures forall f :: f in m && f in live ==> f in k && k[f] == m[f]
  {
    hide Paged, Footprint;
    assert forall f :: f in live ==> f !in SpaceBlocks(n, d, chunk);
  }

  lemma LoadKeepsOthers(st: State, o: map<word, Owner>, loaded: Loaded, s: nat)
    requires Inv(st, o) && LoadFacts(st, loaded) && s in st.procs
    ensures ProcessOk(Pool(loaded.mem.table), loaded.mem.frames, st.procs[s])
    ensures Paged(loaded.mem.frames, st.procs[s].dir)
    ensures forall k :: Held(loaded.mem.frames, st.procs[s], k) == Held(st.mem.frames, st.procs[s], k)
  {
    hide Sound, Pool, Paged, Footprint, ProcessOk, Held, EmptyRecords, SpaceOf, PagesOwned, RightSizes;
    InvPaged(st, o, s);
    var m, p := st.mem.frames, st.procs[s];
    forall f | f in Footprint(m, p.dir)
      ensures f in m && f in loaded.mem.frames && loaded.mem.frames[f] == m[f]
    {
      FootprintOwner(st, o, s, f);
      FootprintInFrames(m, p.dir, f);
    }
    OtherProcess(st, o, s, Pool(loaded.mem.table), loaded.mem.frames);
    ProcessPaged(Pool(loaded.mem.table), loaded.mem.frames, p);
  }

  lemma FootprintInFrames(m: Frames, d: word, f: word)
    requires Paged(m, d) && f in Footprint(m, d)
    ensures f in m
  {
  }

  lemma NewProcessOk(st: State, loaded: Loaded)
    requires LoadFacts(st, loaded)
    ensures ProcessOk(Pool(loaded.mem.table), loaded.mem.frames, loaded.process)
  {
    hide Sound, Pool, Paged, Footprint, Held, SpaceOf, PagesOwned, RightSizes;
  }

  lemma AddKeepsInv(st: State, o: map<word, Owner>, slot: nat, loaded: Loaded)
    requires Inv(st, o) && slot !in st.procs && slot < MAX_PROCESSES && LoadFacts(st, loaded)
    ensures exists o' :: Inv(Added(st, slot, loaded), o')
  {
    hide Sound, Pool, Paged, Footprint, ProcessOk, Held, EmptyRecords, SpaceOf, PagesOwned, RightSizes, Owns,
      FreshProcess, LoadOwners;
    var pool', n, p, st' := Pool(loaded.mem.table), loaded.mem.frames, loaded.process, Added(st, slot, loaded);
    var o' := LoadOwners(o, pool', slot, n, p, loaded.leaked);
    forall s | s in st'.procs
      ensures ProcessOk(pool', n, st'.procs[s]) && Paged(n, st'.procs[s].dir) && s < MAX_PROCESSES
    {
      if s == slot {
        NewProcessOk(st, loaded);
      } else {
        LoadKeepsOthers(st, o, loaded, s);
      }
    }
    forall w, a: word
      ensures a in HeldBy(st', w) <==> a in o' && o'[a] == w
    {
      LoadHeld(st, o, slot, loaded, w, a);
    }
    assert o'.Keys == pool'.Keys by {
      LoadOwnersKeys(o, pool', slot, n, p, loaded.leaked);
    }
    OwnsIntro(st', o');
    assert Inv(st', o');
  }

  lemma LoadOwnersKeys(o: map<word, Owner>, pool': map<word, nat>, slot: nat, m: Frames, p: Process, leaked: set<word>)
    requires Paged(m, p.dir)
    ensures LoadOwners(o, pool', slot, m, p, leaked).Keys == pool'.Keys
  {
    hide Paged;
  }

  lemma NobodyOwnsForSlot(st: State, o: map<word, Owner>, slot: nat)
    requires Inv(st, o) && slot !in st.procs
    ensures o.Keys == Pool(st.mem.table).Keys
    ensures forall b :: b in o && o[b].Of? ==> o[b].slot != slot
  {
    hide Sound, Pool, Paged, Footprint, ProcessOk, Held;
    forall b | b in o && o[b].Of?
      ensures o[b].slot != slot
    {
      assert b in HeldBy(st, o[b]);
    }
  }

  lemma LoadHeld(st: State, o: map<word, Owner>, slot: nat, loaded: Loaded, w: Owner, a: word)
    requires Inv(st, o) && slot !in st.procs && slot < MAX_PROCESSES && LoadFacts(st, loaded)
    requires AllPaged(Added(st, slot, loaded))
    ensures var o' := LoadOwners(o, Pool(loaded.mem.table), slot, loaded.mem.frames, loaded.process, loaded.leaked);
            a in HeldBy(Added(st, slot, loaded), w) <==> a in o' && o'[a] == w
  {
    hide Sound, Pool, Paged, Footprint, ProcessOk, Held, EmptyRecords, SpaceOf, PagesOwned, RightSizes, Owns,
      FreshProcess, LoadOwners;
    NobodyOwnsForSlot(st, o, slot);
    LoadOwner(o, Pool(st.mem.table), Pool(loaded.mem.table), slot, loaded.mem.frames, loaded.process,
      loaded.leaked, w, a);
    OwnersOf(st, o, w, a);
    if w.Of? && w.slot in st.procs {
      LoadKeepsOthers(st, o, loaded, w.slot);
    }
  }

  /** A successful load keeps the invariant. */
  lemma LoadKeepsInv(st: State, o: map<word, Owner>, slot: nat, program: Program)
    requires Inv(st, o) && slot !in st.procs && slot < MAX_PROCESSES
    requires Sound(st.mem.table) && Load(st.mem, program).Some? && HeadersInside(program)
    ensures exists o' :: Inv(LoadStep(st, slot, program), o')
  {
    hide Sound, Inv, LoadFacts, Load, HeadersInside;
    LoadIsFresh(st, program);
    AddKeepsInv(st, o, slot, Load(st.mem, program).value);
    assert LoadStep(st, slot, program) == Added(st, slot, Load(st.mem, program).value);
  }
}
