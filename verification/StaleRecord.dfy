/**
 A run on which a stale back link hits another process's records: the freed block of the first task becomes
 a part of a later process's struct, and unlinking the second task then writes into one of its records.
 */
module StaleRecord {
  import opened Wrappers
  import opened Words
  import opened HeapTable
  import opened Heap
  import opened KernelHeap
  import opened PageTables
  import opened ProcessMemory
  import opened ProcessPages
  import opened KernelRun
  import opened TaskList
  import opened KernelSystem
  import opened Isolation
  import opened Layout
  import opened StaleLink
  import opened ProgramSpace

  // ---------- the write, in any state ----------

  /**
   With the second block of another process's struct as its predecessor, a task leaves its successor in
   record 504.
   */
  lemma RecordHitBy(sys: System, o: map<word, Owner>, slot: nat, s: nat)
    requires SystemInv(sys, o) && slot in sys.state.procs && s in sys.state.procs && s != slot
    requires Listed(sys, slot) && AllPaged(sys.state) && Ready(sys.state.mem.frames, sys.state.procs[slot])
    requires sys.links.prev[sys.state.procs[slot].task] == sys.state.procs[s].self + PAGE_SIZE
    ensures var p, v, value := sys.state.procs[s], Ended(sys, slot).state, sys.links.next[sys.state.procs[slot].task];
            && s in v.procs && |p.records| == MAX_ALLOCATIONS
            && v.procs[s] == p.(records := p.records[504 := Allocation(p.records[504].ptr, value)])
            && Agree(sys.state.mem.frames, v.mem.frames, Footprint(sys.state.mem.frames, p.dir))
  {
    hide SystemInv, Inv, Ready, Paged, AllPaged, Ended, Footprint, Agree, Listed, RecordHit, Sound;
    var p, t := sys.state.procs[s], sys.state.procs[slot].task;
    TaskIsListed(sys, slot);
    EndedProcs(sys, slot);
    MemoryIsSound(sys, o);
    SecondBlock(sys.state, o, s, sys.links.prev[t]);
    SpaceMissedExactlyWhen(sys, o, slot, s);
  }

  /** The second block of a live process's struct has a record's size, and is no table. */
  lemma SecondBlock(st: State, o: map<word, Owner>, s: nat, block: word)
    requires Inv(st, o) && s in st.procs && block == st.procs[s].self + PAGE_SIZE
    ensures |st.procs[s].records| == MAX_ALLOCATIONS && RecordHit(st.procs[s].self, block) == 504
    ensures Paged(st.mem.frames, st.procs[s].dir) && block !in Footprint(st.mem.frames, st.procs[s].dir)
  {
    hide Inv, Pool, Paged, Footprint, Sound, Owns, RecordHit, InHeap;
    InvPaged(st, o, s);
    SelfIsAligned(st, o, s);
    RecordHitIs(st.procs[s].self, block);
    if block in Footprint(st.mem.frames, st.procs[s].dir) {
      FootprintOwner(st, o, s, block);
      OutsideStructs(st, o, block, s);
    }
  }

  lemma SelfIsAligned(st: State, o: map<word, Owner>, s: nat)
    requires Inv(st, o) && s in st.procs
    ensures Aligned(st.procs[s].self) && Aligned(st.procs[s].self + PAGE_SIZE)
    ensures |st.procs[s].records| == MAX_ALLOCATIONS
  {
    hide Pool, Paged, Footprint, Sound, Owns;
    InvOwnsFixtures(st, o, s);
    FootprintIsLive(st, o, st.procs[s].self);
  }

  // ---------- freeing a record that covers less than its allocation ----------

  lemma PagesBehind(m: Frames, d: word, ptr: word, size: word, q: int)
    requires Paged(m, d) && InHeap(ptr) && 0 <= q < PAGES && ptr + size <= q * PAGE_SIZE
    ensures var (n, res) := MapTo(m, d, ptr, ptr, AlignAddress(Wrap(ptr + size)), 0);
            res == 0 && SpaceOf(n, d)[q] == SpaceOf(m, d)[q]
  {
    hide MapTo, SpaceOf, Paged, AlignAddress, Ahead;
    EndBefore(ptr, size, q);
    MapToIsPointwise(m, d, ptr, ptr, AlignAddress(Wrap(ptr + size)), 0, q);
  }

  lemma EndBefore(ptr: word, size: word, q: int)
    requires InHeap(ptr) && 0 <= q < PAGES && ptr + size <= q * PAGE_SIZE
    ensures var end := AlignAddress(Wrap(ptr + size));
            Mappable(ptr, ptr, end) && end <= ptr + Ahead(ptr / PAGE_SIZE, q) * PAGE_SIZE
  {
  }

  lemma GoneFromPool(t: Table, ptr: word, a: int, x: word)
    requires Sound(t) && Spans(Pool(t), ptr, a)
    ensures AddressToBlock(HEAP_ADDRESS, ptr) >= 0 && !Spans(Pool(Kfree(t, ptr)), x, a)
  {
    hide Sound, Pool, Kfree, AddressToBlock;
    KfreeRemoves(t, ptr);
    if Spans(Pool(Kfree(t, ptr)), x, a) {
      SpansAreDisjoint(t, ptr, x, a);
    }
  }

  /** The pages that it does not cover stay writeable, although no block of the heap has them any more. */
  lemma ShortFree(st: State, s: nat, i: nat, q: int)
    requires s in st.procs && Sound(st.mem.table) && Paged(st.mem.frames, st.procs[s].dir)
    requires RecordsInHeap(st.procs[s].records) && i < |st.procs[s].records|
    requires var r := st.procs[s].records; r[i].ptr != NULL && IndexOf(r, r[i].ptr, 0) == i
    requires 0 <= q < PAGES && UserWritable(st.mem.frames, st.procs[s].dir, q)
    requires FrameOf(st.mem.frames, st.procs[s].dir, q) == q * PAGE_SIZE
    requires var a := st.procs[s].records[i];
             Spans(Pool(st.mem.table), a.ptr, q * PAGE_SIZE) && a.ptr + a.size <= q * PAGE_SIZE
    ensures var d, w := st.procs[s].dir, FreeStep(st, s, st.procs[s].records[i].ptr);
            && w.procs.Keys == st.procs.Keys && w.procs[s].dir == d && Paged(w.mem.frames, d)
            && UserWritable(w.mem.frames, d, q) && FrameOf(w.mem.frames, d, q) == q * PAGE_SIZE
            && forall x :: !Spans(Pool(w.mem.table), x, q * PAGE_SIZE)
  {
    hide Sound, Pool, Paged, SpaceOf, MapTo, Kfree, AddressToBlock, Spans, AlignAddress, Unjoin;
    var a := st.procs[s].records[i];
    PagesBehind(st.mem.frames, st.procs[s].dir, a.ptr, a.size, q);
    forall x
      ensures AddressToBlock(HEAP_ADDRESS, a.ptr) >= 0 && !Spans(Pool(Kfree(st.mem.table, a.ptr)), x, q * PAGE_SIZE)
    {
      GoneFromPool(st.mem.table, a.ptr, q * PAGE_SIZE, x);
    }
  }

  // ---------- more steps of runs with known addresses ----------

  /** Slot `slot` has recorded `size` bytes, the first blocks of the window. */
  ghost predicate Recorded(sys: System, v: System, slot: nat, size: word, a: nat, e: nat)
    requires slot in sys.state.procs
  {
    var p, n := sys.state.procs[slot], Blocks(size);
    var k := IndexOf(p.records, NULL, 0);
    && a + n <= e <= HEAP_BLOCKS && a < HEAP_BLOCKS && Window(v.state.mem.table, a + n, e) && k >= 0
    && v.links == sys.links && v.tasks == sys.tasks && v.state.kernel == sys.state.kernel
    && v.state.procs == sys.state.procs[slot := p.(records := p.records[k := Allocation(AddressOf(a), size)])]
    && p.dir in sys.state.mem.frames && p.dir in v.state.mem.frames
    && v.state.mem.frames[p.dir] == sys.state.mem.frames[p.dir]
  }

  lemma MallocAt(sys: System, o: map<word, Owner>, slot: nat, size: word, a: nat, e: nat)
    returns (v: System, o': map<word, Owner>)
    requires SystemInv(sys, o) && slot in sys.state.procs && IndexOf(sys.state.procs[slot].records, NULL, 0) >= 0
    requires Window(sys.state.mem.table, a, e) && 1 <= size <= 0xffff_e000 && a + Blocks(size) <= e
    ensures Usable(sys) && Allowed(sys, ProcessMalloc(slot, size)) && v == Next(sys, ProcessMalloc(slot, size))
    ensures SystemInv(v, o') && Recorded(sys, v, slot, size, a, e)
  {
    hide SystemInv, Inv, Window, Sound, Blocks, Usable, Overruns, Kmalloc, KmallocAddress, Recorded, MallocStep,
      AllPaged, Clean, Listed;
    BlocksCover(size);
    InvMeansUsable(sys, o);
    TakeFromWindow(sys.state.mem.table, a, e, Blocks(size));
    NextKeepsInv(sys, o, ProcessMalloc(slot, size));
    v := Next(sys, ProcessMalloc(slot, size));
    o' :| SystemInv(v, o');
    MemoryIsSound(sys, o);
    InvPaged(sys.state, o, slot);
    MallocIsRecorded(sys, o, slot, size, a, e);
  }

  lemma MallocIsRecorded(sys: System, o: map<word, Owner>, slot: nat, size: word, a: nat, e: nat)
    requires Inv(sys.state, o) && slot in sys.state.procs && IndexOf(sys.state.procs[slot].records, NULL, 0) >= 0
    requires Window(sys.state.mem.table, a, e) && 1 <= size <= 0xffff_e000 && 1 <= Blocks(size) && a + Blocks(size) <= e
    requires Requestable(sys.state.mem.table, size) && Paged(sys.state.mem.frames, sys.state.procs[slot].dir)
    ensures Recorded(sys, sys.(state := MallocStep(sys.state, slot, size)), slot, size, a, e)
  {
    hide Inv, Window, Blocks, Overruns, Kmalloc, KmallocAddress, Paged, Pool, Sound, RecordsValid, RecordsMapped,
      PagesOwned, RecordPointers, OnlyRecordsChange, MapTo, SpaceOf, Footprint, AddressOf;
    WindowEnds(sys.state.mem.table, a, e);
    TakeFromWindow(sys.state.mem.table, a, e, Blocks(size));
    MallocChangesRecords(sys.state, o, slot, size);
    InvPaged(sys.state, o, slot);
    PagedHasDirectory(sys.state.mem.frames, sys.state.procs[slot].dir);
  }

  // ---------- the run: two processes, the first one gone ----------

  const HOLE: word := 0x2a0_0000
  const LARGE: word := 0x280_0000

  lemma RunBlocks()
    ensures Blocks(4096) == 1 && Blocks(20480) == 5 && Blocks(LARGE) == 10240 && Blocks(HOLE) == 10752
  {
  }

  /** Processes 0 and 1, with their tasks in blocks 9 and 11797. */
  ghost predicate BothLoaded(sys: System, o: map<word, Owner>) {
    && SystemInv(sys, o) && sys.state.procs.Keys == {0, 1}
    && sys.state.procs[0].task == AddressOf(9) && sys.state.procs[0].self == AddressOf(0)
    && sys.state.procs[1].task == AddressOf(11797) && sys.state.procs[1].records == EmptyRecords()
    && sys.tasks == [AddressOf(9), AddressOf(11797)]
    && sys.links == TaskList.Added(TaskList.Added(NO_LINKS, AddressOf(9)), AddressOf(11797))
  }

  lemma FirstEmpty(r: seq<Allocation>)
    requires r == EmptyRecords()
    ensures IndexOf(r, NULL, 0) == 0
  {
  }

  /** Process 0 with all of the blocks before block 11788, which process 1 then starts at. */
  lemma LoadBoth(sys: System) returns (s1: System, s2: System, s3: System, o2: map<word, Owner>, o3: map<word, Owner>)
    requires Initial(sys)
    ensures Usable(sys) && Allowed(sys, ProcessLoad(0, ONE_BLOCK)) && s1 == Next(sys, ProcessLoad(0, ONE_BLOCK))
    ensures Usable(s1) && Allowed(s1, ProcessMalloc(0, HOLE)) && s2 == Next(s1, ProcessMalloc(0, HOLE))
    ensures Usable(s2) && Allowed(s2, ProcessLoad(1, ONE_BLOCK)) && s3 == Next(s2, ProcessLoad(1, ONE_BLOCK))
    ensures OneProcess(s2, o2, 11788, 9) && Later(s2.state, s3.state) && BothLoaded(s3, o3)
  {
    hide SystemInv, Later, Window, Usable, AddressOf, Blocks, Next, Allowed, Initial, TaskList.Added, EmptyRecords;
    RunBlocks();
    var o1;
    s1, o1 := LoadFirst(sys, ONE_BLOCK, 1);
    FirstEmpty(s1.state.procs[0].records);
    s2, o2 := MallocAt(s1, o1, 0, HOLE, 1036, HEAP_BLOCKS);
    LaterItself(s2, o2);
    s3, o3 := LoadNext(s2.state, s2, o2, 1, 11788, HEAP_BLOCKS);
  }

  lemma TwoBackLinks(a: word, b: word)
    requires NULL !in [a, b] && a != b
    ensures var l := TaskList.Added(TaskList.Added(NO_LINKS, a), b);
            a in l.prev && l.prev[a] == NULL && b in l.prev && l.prev[b] == a
  {
  }

  lemma BothBackLinks(sys: System, o: map<word, Owner>)
    requires BothLoaded(sys, o)
    ensures AddressOf(9) in sys.links.prev && sys.links.prev[AddressOf(9)] == NULL
    ensures AddressOf(11797) in sys.links.prev && sys.links.prev[AddressOf(11797)] == AddressOf(9)
    ensures AddressOf(9) != AddressOf(11797) && NULL !in sys.tasks && Position(sys.tasks, AddressOf(9)) == 0
  {
    hide SystemInv, AddressOf, EmptyRecords;
    DifferentBlocks(9, 11797);
    TwoBackLinks(AddressOf(9), AddressOf(11797));
  }

  lemma ZeroIsClean(sys: System, o: map<word, Owner>)
    requires BothLoaded(sys, o)
    ensures Usable(sys) && Clean(sys, 0)
  {
    hide SystemInv, Sound, Ready, AllPaged, Clean, AddressOf, Position, EmptyRecords;
    BothBackLinks(sys, o);
    InvMeansUsable(sys, o);
    NoBackLinkIsClean(sys, o, 0);
  }

  /** Process 1 remains, and its task names the freed block 9 as its predecessor. */
  ghost predicate OneLeft(sys: System, o: map<word, Owner>, a: nat) {
    && SystemInv(sys, o) && sys.state.procs.Keys == {1} && Window(sys.state.mem.table, a, 11788)
    && sys.state.procs[1].task == AddressOf(11797) && |sys.state.procs[1].records| == MAX_ALLOCATIONS
    && sys.tasks == [AddressOf(11797)]
    && AddressOf(11797) in sys.links.prev && sys.links.prev[AddressOf(11797)] == AddressOf(9)
  }

  lemma EndZero(first: System, o1: map<word, Owner>, sys: System, o: map<word, Owner>)
    returns (v: System, o': map<word, Owner>)
    requires OneProcess(first, o1, 11788, 9) && BothLoaded(sys, o) && Later(first.state, sys.state)
    ensures Usable(sys) && Allowed(sys, ProcessTerminate(0)) && v == Next(sys, ProcessTerminate(0))
    ensures OneLeft(v, o', 3) && v.state.procs[1].records == EmptyRecords()
  {
    hide SystemInv, Sound, Ready, AllPaged, Clean, AddressOf, Position, Ended, Window, Later, Listed, TaskList.Added,
      Usable, EmptyRecords;
    ZeroIsClean(sys, o);
    UsableParts(sys, 0);
    v := Next(sys, ProcessTerminate(0));
    EndedKeepsSystemInv(sys, o, 0);
    o' :| SystemInv(v, o');
    EndedZero(sys, o);
    EndedWindow(first, o1, sys, o, v, o', 11788, 9);
  }

  lemma EndedZero(sys: System, o: map<word, Owner>)
    requires BothLoaded(sys, o) && Listed(sys, 0) && Ready(sys.state.mem.frames, sys.state.procs[0])
    ensures var v := Ended(sys, 0);
            && v.state.procs.Keys == {1} && v.state.procs[1] == sys.state.procs[1]
            && v.tasks == [AddressOf(11797)]
            && AddressOf(11797) in v.links.prev && v.links.prev[AddressOf(11797)] == AddressOf(9)
  {
    hide SystemInv, Ready, AddressOf, Position, Stored, TaskList.Added, TerminateStep, EmptyRecords;
    BothBackLinks(sys, o);
    EndedProcs(sys, 0);
  }

  // ---------- the run: process 2, with block 9 inside its struct ----------

  /** Process 1's task names the second block of process 2's struct as its predecessor. */
  ghost predicate StructInReusedBlock(sys: System, o: map<word, Owner>) {
    && SystemInv(sys, o) && sys.state.procs.Keys == {1, 2}
    && sys.state.procs[1].task == AddressOf(11797)
    && sys.state.procs[2].self == AddressOf(8) && sys.state.procs[2].task == AddressOf(17)
    && |sys.state.procs[2].records| == MAX_ALLOCATIONS && sys.tasks == [AddressOf(11797), AddressOf(17)]
    && AddressOf(11797) in sys.links.prev && sys.links.prev[AddressOf(11797)] == AddressOf(9)
    && DirectoryOpen(sys.state.mem.frames, sys.state.procs[2].dir)
  }

  /** The first `k` records are in use, and no others. */
  ghost predicate InUse(r: seq<Allocation>, k: nat) {
    k <= |r| && (forall i :: 0 <= i < k ==> r[i].ptr != NULL) && (forall i :: k <= i < |r| ==> r[i].ptr == NULL)
  }

  ghost predicate Filling(sys: System, o: map<word, Owner>, k: nat) {
    && StructInReusedBlock(sys, o) && k <= 504
    && InUse(sys.state.procs[2].records, k) && Window(sys.state.mem.table, 1044 + k, 11788)
  }

  lemma LoadIntoHole(sys: System, o: map<word, Owner>) returns (v: System, o': map<word, Owner>)
    requires OneLeft(sys, o, 8)
    ensures Usable(sys) && Allowed(sys, ProcessLoad(2, ONE_BLOCK)) && v == Next(sys, ProcessLoad(2, ONE_BLOCK))
    ensures Filling(v, o', 0)
  {
    hide SystemInv, Window, Usable, AddressOf, Blocks, Placed, EmptyRecords, DirectoryOpen, Allowed, Next;
    ProgramBlocks();
    v, o' := LoadAt(sys, o, 2, ONE_BLOCK, 8, 11788);
    OpenAfterLoad(sys, o, 2, ONE_BLOCK);
    PlacedInHole(sys, o, v);
  }

  lemma PlacedInHole(sys: System, o: map<word, Owner>, v: System)
    requires OneLeft(sys, o, 8) && Placed(sys, v, 2, 1, 8, 11788)
    ensures v.state.procs.Keys == {1, 2} && v.state.procs[1] == sys.state.procs[1]
    ensures v.state.procs[2].self == AddressOf(8) && v.state.procs[2].task == AddressOf(17)
    ensures |v.state.procs[2].records| == MAX_ALLOCATIONS && InUse(v.state.procs[2].records, 0)
    ensures v.tasks == [AddressOf(11797), AddressOf(17)] && Window(v.state.mem.table, 1044, 11788)
    ensures AddressOf(11797) in v.links.prev && v.links.prev[AddressOf(11797)] == AddressOf(9)
  {
    hide SystemInv, Window, AddressOf;
    DifferentBlocks(17, 11797);
  }

  lemma NextInUse(r: seq<Allocation>, k: nat, a: Allocation)
    requires InUse(r, k) && k < |r| && a.ptr != NULL
    ensures IndexOf(r, NULL, 0) == k && InUse(r[k := a], k + 1)
  {
    assert r[k].ptr == NULL;
  }

  /** Process 2 allocates `size` bytes more. */
  lemma FillOne(sys: System, o: map<word, Owner>, k: nat, size: word) returns (v: System, o': map<word, Owner>)
    requires Filling(sys, o, k) && 1 <= size <= 0xffff_e000 && 1044 + k + Blocks(size) <= 11788
    ensures StructInReusedBlock(v, o') && InUse(v.state.procs[2].records, k + 1)
    ensures v.state.procs[2].records[k] == Allocation(AddressOf(1044 + k), size)
    ensures Window(v.state.mem.table, 1044 + k + Blocks(size), 11788)
    ensures Usable(sys) && Allowed(sys, ProcessMalloc(2, size)) && v == Next(sys, ProcessMalloc(2, size))
  {
    hide SystemInv, Window, Usable, AddressOf, Blocks, Allowed, Next, InUse, DirectoryOpen;
    BlocksCover(size);
    var a := Allocation(AddressOf(1044 + k), size);
    DifferentBlocks(1044 + k, 0);
    NextInUse(sys.state.procs[2].records, k, a);
    v, o' := MallocAt(sys, o, 2, size, 1044 + k, 11788);
    SameDirectoryOpen(sys.state.mem.frames, v.state.mem.frames, sys.state.procs[2].dir);
  }

  function Repeated(step: Step, n: nat): (steps: seq<Step>)
    ensures |steps| == n && forall i :: 0 <= i < n ==> steps[i] == step
  {
    seq(n, _ => step)
  }

  lemma {:induction false} FillMany(sys: System, steps: seq<Step>, u: System, o: map<word, Owner>, n: nat)
    returns (v: System, o': map<word, Owner>)
    requires Run(sys, steps) == Some(u) && Filling(u, o, 0) && n <= 504
    ensures Run(sys, steps + Repeated(ProcessMalloc(2, 4096), n)) == Some(v) && Filling(v, o', n)
    decreases n
  {
    hide Run, Usable, Allowed, Next, StructInReusedBlock, InUse, Window, Blocks, AddressOf;
    var step := ProcessMalloc(2, 4096);
    if n == 0 {
      assert steps + Repeated(step, 0) == steps;
      v, o' := u, o;
    } else {
      var w, ow := FillMany(sys, steps, u, o, n - 1);
      ProgramBlocks();
      v, o' := FillOne(w, ow, n - 1, 4096);
      RunOn(sys, steps + Repeated(step, n - 1), w, step);
      assert steps + Repeated(step, n) == steps + Repeated(step, n - 1) + [step];
    }
  }

  // ---------- the run: process 1 ends ----------

  /** The page of block 11787, the last one of the large record. */
  const LAST_PAGE := HEAP_ADDRESS / PAGE_SIZE + 11787

  /** As before, and record 504 has the blocks from 1548 to 11787. */
  ghost predicate Poised(sys: System, o: map<word, Owner>) {
    StructInReusedBlock(sys, o) && sys.state.procs[2].records[504] == Allocation(AddressOf(1548), LARGE)
  }

  /**
   Record 504 of process 2 has been cut to the address of its own task, 4113 pages of 10240, and the last
   page of its allocation is still writeable.
   */
  ghost predicate Shortened(v: State) {
    && v.procs.Keys == {2} && AllPaged(v) && Sound(v.mem.table) && RecordsInHeap(v.procs[2].records)
    && |v.procs[2].records| == MAX_ALLOCATIONS
    && v.procs[2].records[504] == Allocation(AddressOf(1548), v.procs[2].task)
    && v.procs[2].task == AddressOf(17) && IndexOf(v.procs[2].records, AddressOf(1548), 0) == 504
    && AddressOf(1548) in Pool(v.mem.table) && Pool(v.mem.table)[AddressOf(1548)] == 10240
    && UserWritable(v.mem.frames, v.procs[2].dir, LAST_PAGE)
    && FrameOf(v.mem.frames, v.procs[2].dir, LAST_PAGE) == LAST_PAGE * PAGE_SIZE
  }

  lemma LinksOfOne(sys: System, o: map<word, Owner>)
    requires StructInReusedBlock(sys, o)
    ensures AddressOf(11797) in sys.links.next && sys.links.next[AddressOf(11797)] == AddressOf(17)
    ensures sys.links.prev[AddressOf(11797)] == sys.state.procs[2].self + PAGE_SIZE
  {
    hide Inv, TaskStructs, Proper, DirectoryOpen;
    ProperLinks(sys.links, sys.tasks, 0);
  }

  /** A page of a record is writeable and shows the frame with its own number. */
  lemma RecordPageOpen(st: State, o: map<word, Owner>, s: nat, i: nat, q: int)
    requires Inv(st, o) && s in st.procs && DirectoryOpen(st.mem.frames, st.procs[s].dir)
    requires 0 <= q < PAGES && InRecord(st.procs[s].records, i, q)
    ensures Paged(st.mem.frames, st.procs[s].dir)
    ensures UserWritable(st.mem.frames, st.procs[s].dir, q)
    ensures FrameOf(st.mem.frames, st.procs[s].dir, q) == q * PAGE_SIZE
  {
    hide Sound, Pool, Paged, SpaceOf, Owns, RecordsValid, PagesOwned, RightSizes, Footprint, InRecord;
    assert ProcessOk(Pool(st.mem.table), st.mem.frames, st.procs[s]);
    MaskDropsFlags(q * PAGE_SIZE, USER_WRITE_FLAGS);
    PageWritable(q);
  }

  lemma PageWritable(q: int)
    requires 0 <= q < PAGES
    ensures Writable(q * PAGE_SIZE + USER_WRITE_FLAGS)
  {
    AlignedWritable(q * PAGE_SIZE);
  }

  /** What another process holds is still live after an ending. */
  lemma EndedKeepsLive(sys: System, o: map<word, Owner>, slot: nat, a: word)
    requires SystemInv(sys, o) && Listed(sys, slot) && Ready(sys.state.mem.frames, sys.state.procs[slot])
    requires a in o && o[a].Of? && o[a].slot != slot
    ensures var t, u := sys.state.mem.table, Ended(sys, slot).state.mem.table;
            Sound(u) && a in Pool(t) && a in Pool(u) && Pool(u)[a] == Pool(t)[a]
  {
    MemoryIsSound(sys, o);
    InvPaged(sys.state, o, slot);
    TerminateKeepsInv(sys.state, o, slot);
    var o' :| Inv(TerminateStep(sys.state, slot), o');
    InvSound(TerminateStep(sys.state, slot), o');
    hide SystemInv, Sound, Pool, Paged, Ready, Terminate, AllHeld, Held, ProcessOk;
    EndedPool(sys, o, slot);
    HeldInSomeRole(sys.state.mem.frames, sys.state.procs[slot], a);
    if a in AllHeld(sys.state.mem.frames, sys.state.procs[slot]) {
      var k :| a in Held(sys.state.mem.frames, sys.state.procs[slot], k);
      HeldIsOwned(sys.state, o, slot, k, a);
    }
  }

  /** Pointers stay as they are when a size is written. */
  lemma SamePointers(pool: map<word, nat>, r: seq<Allocation>, i: nat, size: word)
    requires RecordsValid(pool, r) && i < |r| && r[i].ptr != NULL && RecordsInHeap(r)
    ensures var q := r[i := Allocation(r[i].ptr, size)]; RecordsInHeap(q) && IndexOf(q, r[i].ptr, 0) == i
    ensures r[i].ptr in pool && pool[r[i].ptr] == Blocks(r[i].size)
  {
    hide Blocks;
    var q := r[i := Allocation(r[i].ptr, size)];
    var k := IndexOf(q, r[i].ptr, 0);
    assert q[i].ptr == r[i].ptr;
    assert 0 <= k < |r| && q[k].ptr == r[k].ptr;
  }

  /** A page that was writeable stays so in a space that is left alone. */
  lemma SamePageOpen(m: Frames, n: Frames, d: word, q: int)
    requires Paged(m, d) && Agree(m, n, Footprint(m, d)) && 0 <= q < PAGES && UserWritable(m, d, q)
    ensures Paged(n, d) && UserWritable(n, d, q) && FrameOf(n, d, q) == FrameOf(m, d, q)
  {
    SpaceUnchanged(m, n, d);
    hide Paged, Agree, Footprint, SpaceOf;
  }

  /** Ending process 1 cuts the record short. */
  lemma RecordCut(sys: System, o: map<word, Owner>)
    requires Poised(sys, o) && Listed(sys, 1) && AllPaged(sys.state) && Ready(sys.state.mem.frames, sys.state.procs[1])
    ensures Shortened(Ended(sys, 1).state)
  {
    hide SystemInv, Inv, Sound, Pool, Ready, Paged, AddressOf, Ended, Listed, DirectoryOpen, RecordsInHeap,
      RecordsValid, InRecord, UserWritable, FrameOf, Agree, Footprint, Blocks;
    MemoryIsSound(sys, o);
    LinksOfOne(sys, o);
    RecordHitBy(sys, o, 1, 2);
    EndedProcs(sys, 1);
    RecordAt504(sys, o);
    EndedKeepsLive(sys, o, 1, AddressOf(1548));
    SamePageOpen(sys.state.mem.frames, Ended(sys, 1).state.mem.frames, sys.state.procs[2].dir, LAST_PAGE);
  }

  lemma RecordAt504(sys: System, o: map<word, Owner>)
    requires Poised(sys, o)
    ensures Inv(sys.state, o) && Paged(sys.state.mem.frames, sys.state.procs[2].dir)
    ensures UserWritable(sys.state.mem.frames, sys.state.procs[2].dir, LAST_PAGE)
    ensures FrameOf(sys.state.mem.frames, sys.state.procs[2].dir, LAST_PAGE) == LAST_PAGE * PAGE_SIZE
    ensures AddressOf(1548) in o && o[AddressOf(1548)] == Of(2, RecordKind)
    ensures AddressOf(1548) in Pool(sys.state.mem.table) && Pool(sys.state.mem.table)[AddressOf(1548)] == 10240
    ensures var r := sys.state.procs[2].records[504 := Allocation(AddressOf(1548), AddressOf(17))];
            RecordsInHeap(r) && IndexOf(r, AddressOf(1548), 0) == 504
  {
    MemoryIsSound(sys, o);
    hide SystemInv, Inv, Sound, Pool, Paged, DirectoryOpen, UserWritable, FrameOf, Blocks, RecordsInHeap, InRecord,
      AddressOf;
    RunBlocks();
    DifferentBlocks(1548, 0);
    LastPageInRecord(sys.state.procs[2].records);
    AllocationOfRecord(sys.state, o, 2, 504, AddressOf(17));
    RecordPageOpen(sys.state, o, 2, 504, LAST_PAGE);
  }

  lemma LastPageInRecord(r: seq<Allocation>)
    requires |r| == MAX_ALLOCATIONS && r[504] == Allocation(AddressOf(1548), LARGE)
    ensures 0 <= LAST_PAGE < PAGES && InRecord(r, 504, LAST_PAGE)
  {
  }

  /** What the invariant says of a record, and what is left of it when another size is written. */
  lemma AllocationOfRecord(st: State, o: map<word, Owner>, s: nat, i: nat, size: word)
    requires Inv(st, o) && s in st.procs && i < |st.procs[s].records| && st.procs[s].records[i].ptr != NULL
    ensures var r := st.procs[s].records;
            && r[i].ptr in o && o[r[i].ptr] == Of(s, RecordKind)
            && r[i].ptr in Pool(st.mem.table) && Pool(st.mem.table)[r[i].ptr] == Blocks(r[i].size)
            && RecordsInHeap(r[i := Allocation(r[i].ptr, size)])
            && IndexOf(r[i := Allocation(r[i].ptr, size)], r[i].ptr, 0) == i
  {
    hide Sound, Pool, Paged, RecordsMapped, RecordsValid, PagesOwned, RightSizes, Footprint, Owns, Blocks,
      RecordsInHeap, SpaceOf;
    assert ProcessOk(Pool(st.mem.table), st.mem.frames, st.procs[s]);
    InvMeansReady(st, o, s);
    ReadyRecords(st.mem.frames, st.procs[s]);
    SamePointers(Pool(st.mem.table), st.procs[s].records, i, size);
    RecordOwner(st, o, s, i);
  }

  /** The record had another size before. */
  lemma RecordNotSpared(sys: System, o: map<word, Owner>)
    requires Poised(sys, o) && Listed(sys, 1) && AllPaged(sys.state)
    ensures !Clean(sys, 1)
  {
    LinksOfOne(sys, o);
    MemoryIsSound(sys, o);
    SecondBlock(sys.state, o, 2, sys.links.prev[AddressOf(11797)]);
    hide SystemInv, Inv, Sound, AllPaged, Paged, RecordHit, Removable, Position, Footprint;
    assert !RecordsMissed(sys.state.procs[2], sys.links.prev[AddressOf(11797)], AddressOf(17));
  }

  /** The record no longer has the size of its allocation. */
  lemma ShortenedDisagrees(v: State)
    requires Shortened(v)
    ensures !RecordsAgree(v)
  {
    hide Sound, Pool, Paged, UserWritable, FrameOf, RecordsInHeap, RecordsMapped, RecordsTight;
    assert Blocks(AddressOf(17)) == 4113;
    assert AddressOf(1548) != NULL;
  }

  /** Process 2 frees it, and can go on writing memory that is free for others to get. */
  lemma FreedTooShort(v: State)
    requires Shortened(v)
    ensures var w := FreeStep(v, 2, AddressOf(1548)); AllPaged(w) && !Isolated(w)
  {
    hide Sound, Pool, Paged, UserWritable, FrameOf, RecordsInHeap, FreeStep;
    var w := FreeStep(v, 2, AddressOf(1548));
    ShortFree(v, 2, 504, LAST_PAGE);
    assert w.procs.Keys == {2} && Paged(w.mem.frames, w.procs[2].dir);
    assert AllPaged(w);
    assert !InOwnBlock(w, 2, FrameOf(w.mem.frames, w.procs[2].dir, LAST_PAGE));
  }

  // ---------- the whole run ----------

  /** Allocations and loads, with one termination, each allowed. */
  function RecordSteps(): seq<Step> {
    [ProcessLoad(0, ONE_BLOCK), ProcessMalloc(0, HOLE), ProcessLoad(1, ONE_BLOCK), ProcessTerminate(0),
     ProcessMalloc(1, 20480), ProcessLoad(2, ONE_BLOCK)]
    + Repeated(ProcessMalloc(2, 4096), 504) + [ProcessMalloc(2, LARGE)]
  }

  lemma FirstSixSteps(sys: System) returns (v: System, o: map<word, Owner>)
    requires Initial(sys)
    ensures Run(sys, [ProcessLoad(0, ONE_BLOCK), ProcessMalloc(0, HOLE), ProcessLoad(1, ONE_BLOCK), ProcessTerminate(0),
                      ProcessMalloc(1, 20480), ProcessLoad(2, ONE_BLOCK)]) == Some(v)
    ensures Filling(v, o, 0)
  {
    hide Usable, Allowed, Next, Initial, OneProcess, BothLoaded, Later, Filling, Window, Blocks, AddressOf,
      EmptyRecords, SystemInv;
    var s1, s2, s3, o2, o3 := LoadBoth(sys);
    var s4, o4 := EndZero(s2, o2, s3, o3);
    RunBlocks();
    FirstEmpty(s4.state.procs[1].records);
    var s5, o5 := MallocAt(s4, o4, 1, 20480, 3, 11788);
    v, o := LoadIntoHole(s5, o5);
    SixSteps(sys, s1, s2, s3, s4, s5, v, ProcessLoad(0, ONE_BLOCK), ProcessMalloc(0, HOLE), ProcessLoad(1, ONE_BLOCK),
      ProcessTerminate(0), ProcessMalloc(1, 20480), ProcessLoad(2, ONE_BLOCK));
  }

  lemma OneStep(sys: System, step: Step, v: System, steps: seq<Step>)
    requires Usable(sys) && Allowed(sys, step) && v == Next(sys, step)
    ensures Run(sys, [step] + steps) == Run(v, steps)
  {
    hide Usable, Allowed, Next;
    assert ([step] + steps)[1..] == steps;
  }

  lemma SixSteps(s0: System, s1: System, s2: System, s3: System, s4: System, s5: System, s6: System,
                 a: Step, b: Step, c: Step, d: Step, e: Step, f: Step)
    requires Usable(s0) && Allowed(s0, a) && s1 == Next(s0, a) && Usable(s1) && Allowed(s1, b) && s2 == Next(s1, b)
    requires Usable(s2) && Allowed(s2, c) && s3 == Next(s2, c) && Usable(s3) && Allowed(s3, d) && s4 == Next(s3, d)
    requires Usable(s4) && Allowed(s4, e) && s5 == Next(s4, e) && Usable(s5) && Allowed(s5, f) && s6 == Next(s5, f)
    ensures Run(s0, [a, b, c, d, e, f]) == Some(s6)
  {
    hide Usable, Allowed, Next;
    OneStep(s5, f, s6, []);
    OneStep(s4, e, s5, [f]);
    OneStep(s3, d, s4, [e, f]);
    OneStep(s2, c, s3, [d, e, f]);
    OneStep(s1, b, s2, [c, d, e, f]);
    OneStep(s0, a, s1, [b, c, d, e, f]);
    assert [a] + [b, c, d, e, f] == [a, b, c, d, e, f];
    assert [b] + [c, d, e, f] == [b, c, d, e, f] && [c] + [d, e, f] == [c, d, e, f];
    assert [d] + [e, f] == [d, e, f] && [e] + [f] == [e, f] && [f] + [] == [f];
  }

  lemma RecordStepsAreARun(sys: System) returns (v: System, o: map<word, Owner>)
    requires Initial(sys)
    ensures Run(sys, RecordSteps()) == Some(v) && Poised(v, o)
  {
    hide Run, Usable, Allowed, Next, Initial, StructInReusedBlock, InUse, Window, Blocks, AddressOf;
    var u, o1 := FirstSixSteps(sys);
    var first := [ProcessLoad(0, ONE_BLOCK), ProcessMalloc(0, HOLE), ProcessLoad(1, ONE_BLOCK), ProcessTerminate(0),
                  ProcessMalloc(1, 20480), ProcessLoad(2, ONE_BLOCK)];
    var w, o2 := FillMany(sys, first, u, o1, 504);
    RunBlocks();
    v, o := FillOne(w, o2, 504, LARGE);
    RunOn(sys, first + Repeated(ProcessMalloc(2, 4096), 504), w, ProcessMalloc(2, LARGE));
  }

  /**
   After this run, starting from a new kernel, process 1 must not be terminated: the code would write the
   address of process 2's task struct into the size of process 2's record 504. When process 2 then frees
   that record, only a part of its pages is unmapped, and it can still write a page that is free again.
   */
  lemma StaleRecordExample(sys: System)
    requires Initial(sys)
    ensures Run(sys, RecordSteps()).Some?
    ensures var u := Run(sys, RecordSteps()).value;
            && Usable(u) && u.state.procs.Keys == {1, 2} && !Clean(u, 1)
            && |u.state.procs[2].records| == MAX_ALLOCATIONS && u.state.procs[2].records[504].size == LARGE
            && var v := Ended(u, 1).state;
               && Shortened(v) && !RecordsAgree(v)
               && var w := FreeStep(v, 2, AddressOf(1548)); AllPaged(w) && !Isolated(w)
  {
    hide Run, Initial, SystemInv, Clean, Ended, AddressOf, Shortened, RecordsAgree, Isolated, AllPaged, FreeStep, Sound,
      Ready, Listed, DirectoryOpen;
    var u, o := RecordStepsAreARun(sys);
    InvMeansUsable(u, o);
    UsableParts(u, 1);
    RecordNotSpared(u, o);
    RecordCut(u, o);
    ShortenedDisagrees(Ended(u, 1).state);
    FreedTooShort(Ended(u, 1).state);
  }
}
