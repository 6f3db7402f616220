/** A program goes on seeing what was loaded for it, for as long as it lives and whatever the others do. */
module ProgramStays {
  import opened Words
  import opened HeapTable
  import opened Heap
  import opened KernelHeap
  import opened PageTables
  import opened ProcessMemory
  import opened ProcessPages
  import opened KernelRun
  import opened KernelSystem
  import opened TaskList
  import opened Isolation
  import opened ProgramSpace

  /** Page `q` lies outside the heap's 100 MB. */
  predicate OutsideHeap(q: int) {
    q * PAGE_SIZE < 0x100_0000 || q * PAGE_SIZE >= 0x100_0000 + 0x640_0000
  }

  /** The process in slot `s` has the same blocks but for its records, and the same entry for page `q`. */
  ghost predicate Kept(st: State, u: State, s: nat, q: int)
    requires 0 <= q < PAGES
  {
    && s in st.procs && s in u.procs && u.procs[s] == st.procs[s].(records := u.procs[s].records)
    && var d := st.procs[s].dir;
       && Paged(st.mem.frames, d) && Paged(u.mem.frames, d) && d in st.mem.frames && d in u.mem.frames
       && u.mem.frames[d] == st.mem.frames[d] && SpaceOf(u.mem.frames, d)[q] == SpaceOf(st.mem.frames, d)[q]
  }

  lemma KeptByAgreement(st: State, u: State, s: nat, q: int)
    requires 0 <= q < PAGES && s in st.procs && s in u.procs && u.procs[s] == st.procs[s]
    requires Paged(st.mem.frames, st.procs[s].dir)
    requires Agree(st.mem.frames, u.mem.frames, Footprint(st.mem.frames, st.procs[s].dir))
    ensures Kept(st, u, s, q)
  {
    hide SpaceOf;
    SpaceUnchanged(st.mem.frames, u.mem.frames, st.procs[s].dir);
  }

  lemma KeptByOwnTables(st: State, u: State, s: nat, q: int)
    requires 0 <= q < PAGES && s in st.procs && s in u.procs
    requires u.procs[s] == st.procs[s].(records := u.procs[s].records)
    requires Paged(st.mem.frames, st.procs[s].dir)
    requires OnlyOwnTables(st.mem.frames, u.mem.frames, st.procs[s].dir)
    requires SpaceOf(u.mem.frames, st.procs[s].dir)[q] == SpaceOf(st.mem.frames, st.procs[s].dir)[q]
    ensures Kept(st, u, s, q)
  {
    hide SpaceOf, Footprint;
    PagedHasDirectory(st.mem.frames, st.procs[s].dir);
    PagedHasDirectory(u.mem.frames, st.procs[s].dir);
  }

  // ---------- malloc and free ----------

  /** Mapping heap memory onto itself changes no page outside the heap. */
  lemma HeapMapping(m: Frames, d: word, ptr: word, size: word, flags: Flags, q: int)
    requires Paged(m, d) && InHeap(ptr) && 1 <= size <= 0xffff_e000 && 0 <= q < PAGES && OutsideHeap(q)
    requires ptr + Blocks(size) * BLOCK_SIZE <= HEAP_ADDRESS + HEAP_BLOCKS * BLOCK_SIZE
    ensures var n := MapTo(m, d, ptr, ptr, AlignAddress(Wrap(ptr + size)), flags).0;
            OnlyOwnTables(m, n, d) && SpaceOf(n, d)[q] == SpaceOf(m, d)[q]
  {
    hide MapTo, SpaceOf, Paged, AlignAddress, Blocks, OnlyOwnTables;
    BlocksCover(size);
    MapOntoItself(m, d, ptr, size, flags);
    MapToOnlyOwnTables(m, d, ptr, ptr, AlignAddress(Wrap(ptr + size)), flags);
  }

  lemma MallocKeepsPage(st: State, o: map<word, Owner>, slot: nat, size: word, q: int)
    requires Inv(st, o) && slot in st.procs && Requestable(st.mem.table, size) && 0 <= q < PAGES && OutsideHeap(q)
    ensures Paged(st.mem.frames, st.procs[slot].dir)
    ensures var d, u := st.procs[slot].dir, MallocStep(st, slot, size);
            && OnlyOwnTables(st.mem.frames, u.mem.frames, d)
            && SpaceOf(u.mem.frames, d)[q] == SpaceOf(st.mem.frames, d)[q]
  {
    hide Inv, Sound, Pool, Paged, SpaceOf, MapTo, Kmalloc, KmallocAddress, Overruns, Blocks, InHeap, OnlyOwnTables,
      AlignAddress, OutsideHeap;
    InvPaged(st, o, slot);
    InvSound(st, o);
    var t, p, n := st.mem.table, st.procs[slot], Blocks(size);
    var ptr := KmallocAddress(t, n);
    SameTables(st.mem.frames, p.dir);
    if ptr != 0 && IndexOf(p.records, 0, 0) >= 0 {
      KmallocAdds(t, n);
      SpansAreInHeap(Kmalloc(t, n), ptr);
      HeapMapping(st.mem.frames, p.dir, ptr, size, USER_WRITE_FLAGS, q);
    }
  }

  lemma FreeKeepsPage(st: State, o: map<word, Owner>, slot: nat, ptr: word, q: int)
    requires Inv(st, o) && slot in st.procs && ptr != 0 && RecordsInHeap(st.procs[slot].records)
    requires 0 <= q < PAGES && OutsideHeap(q)
    ensures Paged(st.mem.frames, st.procs[slot].dir)
    ensures var d, u := st.procs[slot].dir, FreeStep(st, slot, ptr);
            && OnlyOwnTables(st.mem.frames, u.mem.frames, d)
            && SpaceOf(u.mem.frames, d)[q] == SpaceOf(st.mem.frames, d)[q]
  {
    hide Inv, Sound, Pool, Paged, SpaceOf, MapTo, Kfree, AddressToBlock, Blocks, InHeap, OnlyOwnTables, AlignAddress,
      OutsideHeap, Unjoin, RecordsInHeap;
    InvPaged(st, o, slot);
    InvSound(st, o);
    var p := st.procs[slot];
    SameTables(st.mem.frames, p.dir);
    var k := IndexOf(p.records, ptr, 0);
    if k >= 0 {
      RecordInHeap(st, o, slot, k);
      HeapMapping(st.mem.frames, p.dir, ptr, p.records[k].size, 0, q);
    }
  }

  lemma RecordInHeap(st: State, o: map<word, Owner>, slot: nat, k: int)
    requires Inv(st, o) && slot in st.procs && 0 <= k < |st.procs[slot].records| && st.procs[slot].records[k].ptr != 0
    ensures var a := st.procs[slot].records[k];
            && InHeap(a.ptr) && Aligned(a.ptr) && 1 <= a.size <= 0xffff_e000
            && a.ptr + Blocks(a.size) * BLOCK_SIZE <= HEAP_ADDRESS + HEAP_BLOCKS * BLOCK_SIZE
  {
    hide Sound, Pool, Paged, SpaceOf, RecordsMapped, PagesOwned, RightSizes, Footprint, Owns, Blocks;
    assert ProcessOk(Pool(st.mem.table), st.mem.frames, st.procs[slot]);
    SpansAreInHeap(st.mem.table, st.procs[slot].records[k].ptr);
  }

  lemma MallocKeeps(st: State, o: map<word, Owner>, slot: nat, size: word, s: nat, q: int)
    requires Inv(st, o) && slot in st.procs && Requestable(st.mem.table, size) && 0 <= q < PAGES && OutsideHeap(q)
    requires s in st.procs
    ensures Paged(st.mem.frames, st.procs[slot].dir) && Kept(st, MallocStep(st, slot, size), s, q)
  {
    hide Inv, Paged, SpaceOf, Malloc, KmallocAddress, Overruns, Blocks, OnlyOwnTables, OutsideHeap, Agree, Footprint,
      Kept;
    MallocKeepsPage(st, o, slot, size, q);
    RecordsStepKeeps(st, o, slot, MallocStep(st, slot, size), s, q);
  }

  lemma FreeKeeps(st: State, o: map<word, Owner>, slot: nat, ptr: word, s: nat, q: int)
    requires Inv(st, o) && slot in st.procs && ptr != 0 && RecordsInHeap(st.procs[slot].records)
    requires 0 <= q < PAGES && OutsideHeap(q) && s in st.procs
    ensures Paged(st.mem.frames, st.procs[slot].dir) && Kept(st, FreeStep(st, slot, ptr), s, q)
  {
    hide Inv, Paged, SpaceOf, Free, OnlyOwnTables, OutsideHeap, Agree, Footprint, Kept, RecordsInHeap;
    FreeKeepsPage(st, o, slot, ptr, q);
    RecordsStepKeeps(st, o, slot, FreeStep(st, slot, ptr), s, q);
  }

  /** A step that changes one process's records and tables. */
  lemma RecordsStepKeeps(st: State, o: map<word, Owner>, slot: nat, u: State, s: nat, q: int)
    requires Inv(st, o) && slot in st.procs && s in st.procs && 0 <= q < PAGES
    requires slot in u.procs && u.procs == st.procs[slot := st.procs[slot].(records := u.procs[slot].records)]
    requires Paged(st.mem.frames, st.procs[slot].dir) && OnlyOwnTables(st.mem.frames, u.mem.frames, st.procs[slot].dir)
    requires SpaceOf(u.mem.frames, st.procs[slot].dir)[q] == SpaceOf(st.mem.frames, st.procs[slot].dir)[q]
    ensures Kept(st, u, s, q)
  {
    hide Inv, Paged, SpaceOf, OnlyOwnTables, Agree, Footprint, Kept;
    if s == slot {
      KeptByOwnTables(st, u, s, q);
    } else {
      InvPaged(st, o, s);
      OthersAgree(st, o, slot, u.mem.frames, s);
      KeptByAgreement(st, u, s, q);
    }
  }

  // ---------- loading and ending others ----------

  lemma LoadKeeps(sys: System, o: map<word, Owner>, slot: nat, program: Program, s: nat, q: int)
    requires SystemInv(sys, o) && slot !in sys.state.procs && slot < MAX_PROCESSES && s in sys.state.procs
    requires Sound(sys.state.mem.table) && Load(sys.state.mem, program).Some? && HeadersInside(program)
    requires 0 <= q < PAGES
    ensures Kept(sys.state, Started(sys, slot, program).state, s, q)
  {
    hide Sound, Load, HeadersInside, Inv, TaskStructs, Stored, Proper, TaskList.Added, LoadFacts, Paged, Agree,
      Footprint, Kept;
    var st, u, v := sys.state, LoadStep(sys.state, slot, program), Started(sys, slot, program).state;
    InvPaged(st, o, s);
    LoadIsFresh(st, program);
    LoadKeepsInv(st, o, slot, program);
    var o' :| Inv(u, o');
    LoadKeepsOthers(st, o, Load(st.mem, program).value, s);
    AgreesWithLoaded(st, o, Load(st.mem, program).value, s);
    if sys.links.head != NULL {
      TailWriteMisses(sys, o, u, o', slot, program, s);
      TailWriteKeepsInv(sys, o, u, o', slot, program);
      SpaceUnchanged(st.mem.frames, u.mem.frames, st.procs[s].dir);
      AgreeThrough(st.mem.frames, u.mem.frames, v.mem.frames, Footprint(st.mem.frames, st.procs[s].dir));
    }
    KeptByAgreement(st, v, s, q);
  }

  /** The new process's frames are none of the old ones. */
  lemma AgreesWithLoaded(st: State, o: map<word, Owner>, loaded: Loaded, s: nat)
    requires Inv(st, o) && LoadFacts(st, loaded) && s in st.procs
    ensures Paged(st.mem.frames, st.procs[s].dir)
    ensures Agree(st.mem.frames, loaded.mem.frames, Footprint(st.mem.frames, st.procs[s].dir))
  {
    hide Sound, Pool, ProcessOk, FreshProcess, PagesOwned, SpaceOf, Held;
    forall f | f in Footprint(st.mem.frames, st.procs[s].dir)
      ensures f in st.mem.frames && f in Pool(st.mem.table)
    {
      FootprintOwner(st, o, s, f);
    }
  }

  lemma EndKeeps(sys: System, o: map<word, Owner>, slot: nat, s: nat, q: int)
    requires SystemInv(sys, o) && slot in sys.state.procs && s in sys.state.procs && s != slot && 0 <= q < PAGES
    requires Listed(sys, slot) && AllPaged(sys.state) && Ready(sys.state.mem.frames, sys.state.procs[slot])
    requires Clean(sys, slot)
    ensures Kept(sys.state, Ended(sys, slot).state, s, q)
  {
    hide SystemInv, Listed, Ready, Paged, Clean, Ended, Agree, Footprint, Kept;
    EndedCleanExactlyWhen(sys, o, slot);
    KeptByAgreement(sys.state, Ended(sys, slot).state, s, q);
  }

  // ---------- runs ----------

  lemma SameFramesKeep(st: State, o: map<word, Owner>, u: State, s: nat, q: int)
    requires Inv(st, o) && s in st.procs && u.procs == st.procs && u.mem.frames == st.mem.frames && 0 <= q < PAGES
    ensures Kept(st, u, s, q)
  {
    hide Inv, Paged, Footprint, Agree, Kept;
    InvPaged(st, o, s);
    SelfAgrees(st.mem.frames, st.procs[s].dir);
    KeptByAgreement(st, u, s, q);
  }

  lemma NextKeeps(sys: System, o: map<word, Owner>, step: Step, s: nat, q: int)
    requires SystemInv(sys, o) && Usable(sys) && Allowed(sys, step) && s in sys.state.procs
    requires step != ProcessTerminate(s)
    requires 0 <= q < PAGES && OutsideHeap(q)
    ensures Kept(sys.state, Next(sys, step).state, s, q)
  {
    hide Inv, Proper, TaskStructs, Sound, Load, Ready, Listed, Clean, Requestable, HeadersInside, OutsideHeap, Kept,
      Started, Ended, MallocStep, FreeStep, InHeap, Paged, Kmalloc, KmallocAddress, Kfree, AddressToBlock, Blocks,
      RecordsInHeap;
    var v := Next(sys, step).state;
    match step
    case KernelMalloc(size) =>
      SameFramesKeep(sys.state, o, v, s, q);
    case KernelRelease(ptr) =>
      SameFramesKeep(sys.state, o, v, s, q);
    case ProcessLoad(slot, program) =>
      LoadKeeps(sys, o, slot, program, s, q);
    case ProcessMalloc(slot, size) =>
      MallocKeeps(sys.state, o, slot, size, s, q);
    case ProcessFree(slot, ptr) =>
      ReadyRecords(sys.state.mem.frames, sys.state.procs[slot]);
      FreeKeeps(sys.state, o, slot, ptr, s, q);
    case ProcessTerminate(slot) =>
      EndKeeps(sys, o, slot, s, q);
  }

  lemma KeptAgain(st: State, u: State, v: State, s: nat, q: int)
    requires 0 <= q < PAGES && Kept(st, u, s, q) && Kept(u, v, s, q)
    ensures Kept(st, v, s, q)
  {
    hide Paged, SpaceOf;
  }

  lemma KeptLives(st: State, u: State, s: nat, q: int)
    requires 0 <= q < PAGES && Kept(st, u, s, q)
    ensures s in u.procs
  {
    hide Paged, SpaceOf;
  }

  lemma {:induction false} RunKeeps(sys: System, o: map<word, Owner>, steps: seq<Step>, s: nat, q: int)
    requires SystemInv(sys, o) && Run(sys, steps).Some? && s in sys.state.procs && ProcessTerminate(s) !in steps
    requires 0 <= q < PAGES && OutsideHeap(q)
    ensures Kept(sys.state, Run(sys, steps).value.state, s, q)
    decreases |steps|
  {
    hide SystemInv, Usable, Allowed, Next, Kept, OutsideHeap;
    if steps == [] {
      SameSystemKeeps(sys, o, s, q);
    } else {
      assert steps[0] in steps && forall step :: step in steps[1..] ==> step in steps;
      NextKeeps(sys, o, steps[0], s, q);
      NextKeepsInv(sys, o, steps[0]);
      var o' :| SystemInv(Next(sys, steps[0]), o');
      KeptLives(sys.state, Next(sys, steps[0]).state, s, q);
      RunKeeps(Next(sys, steps[0]), o', steps[1..], s, q);
      KeptAgain(sys.state, Next(sys, steps[0]).state, Run(sys, steps).value.state, s, q);
    }
  }

  lemma SameSystemKeeps(sys: System, o: map<word, Owner>, s: nat, q: int)
    requires SystemInv(sys, o) && s in sys.state.procs && 0 <= q < PAGES
    ensures Kept(sys.state, sys.state, s, q)
  {
    hide Inv, Proper, TaskStructs, Kept;
    SameFramesKeep(sys.state, o, sys.state, s, q);
  }

  lemma KeptIsSeen(st: State, u: State, s: nat, a: word, phys: int, writable: bool)
    requires Kept(st, u, s, a / PAGE_SIZE) && Sees(st, s, a, phys, writable)
    ensures Sees(u, s, a, phys, writable)
  {
    hide Paged, SpaceOf, Physical;
    PhysicalBySpace(st.mem.frames, st.procs[s].dir, a);
    PhysicalBySpace(u.mem.frames, u.procs[s].dir, a);
  }

  /**
   Outside the heap a process sees throughout its life what it saw at first: whatever run of allocations,
   loads and endings of its own and of others follows, each address shows the same byte, writeable or not.
   */
  lemma RunsKeepTheProgram(sys: System, o: map<word, Owner>, steps: seq<Step>, s: nat, a: word, phys: int,
                           writable: bool)
    requires SystemInv(sys, o) && Run(sys, steps).Some? && ProcessTerminate(s) !in steps
    requires OutsideHeap(a / PAGE_SIZE) && Sees(sys.state, s, a, phys, writable)
    ensures Sees(Run(sys, steps).value.state, s, a, phys, writable)
  {
    hide SystemInv, Run, Kept, OutsideHeap, Physical, Paged, SpaceOf, UserWritable;
    RunKeeps(sys, o, steps, s, a / PAGE_SIZE);
    KeptIsSeen(sys.state, Run(sys, steps).value.state, s, a, phys, writable);
  }

  /**
   From a new kernel: after any run, load a program, and go on with any run that does not end it. Each byte of
   its segments that is visible at first and lies outside the heap is still seen where it was linked.
   */
  lemma SegmentsStaySeen(sys: System, before: seq<Step>, slot: nat, program: Program, after: seq<Step>, i: nat, x: int)
    requires Initial(sys) && Run(sys, before).Some?
    requires Usable(Run(sys, before).value) && Allowed(Run(sys, before).value, ProcessLoad(slot, program))
    requires Run(Next(Run(sys, before).value, ProcessLoad(slot, program)), after).Some?
    requires ProcessTerminate(slot) !in after
    requires program.Elf? && i < |program.headers| && Visible(program.headers, i, x)
    requires var h := program.headers[i];
             h.vaddr % PAGE_SIZE == h.offset % PAGE_SIZE && OutsideHeap((h.vaddr + x) / PAGE_SIZE)
    ensures var h, v := program.headers[i], Next(Run(sys, before).value, ProcessLoad(slot, program));
            slot in v.state.procs
            && Sees(Run(v, after).value.state, slot, h.vaddr + x,
                    v.state.procs[slot].image.memory + h.offset + x, h.writable)
  {
    hide SystemInv, Initial, Usable, Allowed, Next, Run, Sees, Untouched, OnStack, OutsideHeap;
    InitialInv(sys);
    RunKeepsInv(sys, map[], before);
    var u := Run(sys, before).value;
    var o :| SystemInv(u, o);
    var step := ProcessLoad(slot, program);
    NextKeepsInv(u, o, step);
    var v := Next(u, step);
    var o' :| SystemInv(v, o');
    var h := program.headers[i];
    SegmentSeen(u, o, slot, program, v.state, i, x);
    RunsKeepTheProgram(v, o', after, slot, h.vaddr + x, v.state.procs[slot].image.memory + h.offset + x, h.writable);
  }

  // ---------- heap memory as the program sees it ----------

  /** Every process's directory lets its tables decide. */
  ghost predicate AllOpen(st: State) {
    forall s :: s in st.procs ==> DirectoryOpen(st.mem.frames, st.procs[s].dir)
  }

  lemma NextProcesses(sys: System, step: Step, s: nat)
    requires Usable(sys) && Allowed(sys, step) && s in Next(sys, step).state.procs
    ensures (s in sys.state.procs && step != ProcessTerminate(s)) || (step.ProcessLoad? && step.slot == s)
  {
    hide Sound, Load, Ready, Paged, Requestable, HeadersInside, Clean, Malloc, Free, Terminate, Kmalloc, KmallocAddress,
      Kfree, AddressToBlock, Blocks, Overwritten, Stored, Removed, TaskList.Added, InHeap;
  }

  lemma KeptOpen(st: State, u: State, s: nat, q: int)
    requires 0 <= q < PAGES && Kept(st, u, s, q) && DirectoryOpen(st.mem.frames, st.procs[s].dir)
    ensures s in u.procs && DirectoryOpen(u.mem.frames, u.procs[s].dir)
  {
    hide Paged, SpaceOf;
  }

  lemma NextKeepsOpen(sys: System, o: map<word, Owner>, step: Step)
    requires SystemInv(sys, o) && Usable(sys) && Allowed(sys, step) && AllOpen(sys.state)
    ensures AllOpen(Next(sys, step).state)
  {
    hide SystemInv, Usable, Allowed, Next, Kept, DirectoryOpen;
    forall s | s in Next(sys, step).state.procs
      ensures DirectoryOpen(Next(sys, step).state.mem.frames, Next(sys, step).state.procs[s].dir)
    {
      NextProcesses(sys, step, s);
      if step.ProcessLoad? && step.slot == s {
        OpenAfterLoad(sys, o, s, step.program);
      } else {
        NextKeeps(sys, o, step, s, 0);
        KeptOpen(sys.state, Next(sys, step).state, s, 0);
      }
    }
  }

  lemma {:induction false} RunKeepsOpen(sys: System, o: map<word, Owner>, steps: seq<Step>)
    requires SystemInv(sys, o) && Run(sys, steps).Some? && AllOpen(sys.state)
    ensures AllOpen(Run(sys, steps).value.state)
    decreases |steps|
  {
    hide SystemInv, Usable, Allowed, Next, AllOpen;
    if steps != [] {
      NextKeepsOpen(sys, o, steps[0]);
      NextKeepsInv(sys, o, steps[0]);
      var o' :| SystemInv(Next(sys, steps[0]), o');
      RunKeepsOpen(Next(sys, steps[0]), o', steps[1..]);
    }
  }

  lemma RecordIsSeen(st: State, o: map<word, Owner>, s: nat, i: nat, x: nat)
    requires Inv(st, o) && AllOpen(st) && s in st.procs && i < |st.procs[s].records| && st.procs[s].records[i].ptr != 0
    requires x < st.procs[s].records[i].size && st.procs[s].records[i].ptr + x < WORD_LIMIT
    ensures var ptr := st.procs[s].records[i].ptr; Sees(st, s, ptr + x, ptr + x, true)
  {
    hide Sound, Pool, Paged, SpaceOf, RecordsValid, PagesOwned, RightSizes, Footprint, Owns, DirectoryOpen, Sees,
      InRecord;
    assert ProcessOk(Pool(st.mem.table), st.mem.frames, st.procs[s]);
    var a := st.procs[s].records[i].ptr + x;
    RecordInHeap(st, o, s, i);
    PageOfRecord(st.procs[s].records, i, x);
    EntryIsSeen(st, s, a, a / PAGE_SIZE * PAGE_SIZE, true);
  }

  lemma PageOfRecord(r: seq<Allocation>, i: nat, x: nat)
    requires i < |r| && r[i].ptr != 0 && Aligned(r[i].ptr) && x < r[i].size
    ensures InRecord(r, i, (r[i].ptr + x) / PAGE_SIZE)
  {
  }

  /** After any run each process can read and write all that its records say it has allocated, at its own address. */
  lemma RunsShowRecords(sys: System, steps: seq<Step>, s: nat, i: nat, x: nat)
    requires Initial(sys) && Run(sys, steps).Some? && s in Run(sys, steps).value.state.procs
    requires var r := Run(sys, steps).value.state.procs[s].records;
             i < |r| && r[i].ptr != 0 && x < r[i].size && r[i].ptr + x < WORD_LIMIT
    ensures var u := Run(sys, steps).value.state;
            var ptr := u.procs[s].records[i].ptr; Sees(u, s, ptr + x, ptr + x, true)
  {
    hide Inv, Proper, TaskStructs, Run, Sees;
    InitialInv(sys);
    RunKeepsInv(sys, map[], steps);
    var o :| SystemInv(Run(sys, steps).value, o);
    RunKeepsOpen(sys, map[], steps);
    RecordIsSeen(Run(sys, steps).value.state, o, s, i, x);
  }

  /** What a process has freed it sees no longer. */
  lemma FreedIsUnseen(st: State, o: map<word, Owner>, s: nat, i: nat, x: nat)
    requires Inv(st, o) && s in st.procs && i < |st.procs[s].records| && st.procs[s].records[i].ptr != 0
    requires RecordsInHeap(st.procs[s].records)
    requires x < st.procs[s].records[i].size && st.procs[s].records[i].ptr + x < WORD_LIMIT
    ensures Paged(st.mem.frames, st.procs[s].dir)
    ensures var a, d := st.procs[s].records[i], st.procs[s].dir;
            var u := FreeStep(st, s, a.ptr);
            Paged(u.mem.frames, d) && !Readable(SpaceOf(u.mem.frames, d)[(a.ptr + x) / PAGE_SIZE])
  {
    hide Inv, Sound, Pool, Paged, SpaceOf, MapTo, Kfree, AddressToBlock, Blocks, InHeap, AlignAddress, Unjoin,
      RecordsInHeap;
    var a := st.procs[s].records[i];
    InvPaged(st, o, s);
    RecordInHeap(st, o, s, i);
    OnlyIndex(st, o, s, i);
    MapOntoItself(st.mem.frames, st.procs[s].dir, a.ptr, a.size, 0);
    PageInRange(a.ptr, x, a.size);
    NoFlags((a.ptr + x) / PAGE_SIZE);
  }

  lemma PageInRange(ptr: word, x: nat, size: word)
    requires Aligned(ptr) && x < size && ptr + x < WORD_LIMIT
    ensures ptr <= (ptr + x) / PAGE_SIZE * PAGE_SIZE < ptr + size && 0 <= (ptr + x) / PAGE_SIZE < PAGES
  {
  }

  lemma NoFlags(q: nat)
    requires q < PAGES
    ensures !Readable(q * PAGE_SIZE)
  {
    assert q * PAGE_SIZE == 8 * (512 * q);
  }

  lemma OnlyIndex(st: State, o: map<word, Owner>, s: nat, i: nat)
    requires Inv(st, o) && s in st.procs && i < |st.procs[s].records| && st.procs[s].records[i].ptr != 0
    ensures IndexOf(st.procs[s].records, st.procs[s].records[i].ptr, 0) == i
  {
    hide Sound, Pool, Paged, SpaceOf, RecordsMapped, PagesOwned, RightSizes, Footprint, Owns, Blocks;
    assert ProcessOk(Pool(st.mem.table), st.mem.frames, st.procs[s]);
    var k := IndexOf(st.procs[s].records, st.procs[s].records[i].ptr, 0);
  }
}
