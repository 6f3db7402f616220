/** The main theorems about whole runs: isolation, agreement of records and heap, no lost block. */
module Isolation {
  import opened Wrappers
  import opened Words
  import opened HeapTable
  import opened Heap
  import opened KernelHeap
  import opened PageTables
  import opened AddressSpace
  import opened ProcessMemory
  import opened ProcessPages
  import opened KernelRun
  import opened KernelSystem
  import opened TaskList

  // ---------- runs ----------

  datatype Step =
    | KernelMalloc(size: word)
    | KernelRelease(ptr: word)
    | ProcessLoad(slot: nat, program: Program)
    | ProcessMalloc(slot: nat, size: word)
    | ProcessFree(slot: nat, ptr: word)
    | ProcessTerminate(slot: nat)

  /** What the kernel's code relies on in every state; InvMeansUsable shows that it always holds. */
  ghost predicate Usable(sys: System) {
    && Sound(sys.state.mem.table) && AllPaged(sys.state)
    && forall s :: s in sys.state.procs ==> Ready(sys.state.mem.frames, sys.state.procs[s]) && Listed(sys, s)
  }

  /**
   When a step may be taken: the heap scan must not overrun, loads succeed, pointers are not null, and a
   process that ends has a back link that does no harm.
   */
  ghost predicate Allowed(sys: System, step: Step)
    requires Usable(sys)
  {
    match step
    case KernelMalloc(size) => Requestable(sys.state.mem.table, size)
    case KernelRelease(ptr) => ptr in sys.state.kernel && InHeap(ptr)
    case ProcessLoad(slot, program) =>
      slot < MAX_PROCESSES && slot !in sys.state.procs && HeadersInside(program) && Load(sys.state.mem, program).Some?
    case ProcessMalloc(slot, size) => slot in sys.state.procs && Requestable(sys.state.mem.table, size)
    case ProcessFree(slot, ptr) => slot in sys.state.procs && ptr != 0
    case ProcessTerminate(slot) => slot in sys.state.procs && Clean(sys, slot)
  }

  ghost function Next(sys: System, step: Step): System
    requires Usable(sys) && Allowed(sys, step)
  {
    match step
    case KernelMalloc(size) => sys.(state := KernelAlloc(sys.state, size))
    case KernelRelease(ptr) => sys.(state := KernelFree(sys.state, ptr))
    case ProcessLoad(slot, program) => Started(sys, slot, program)
    case ProcessMalloc(slot, size) => sys.(state := MallocStep(sys.state, slot, size))
    case ProcessFree(slot, ptr) => sys.(state := FreeStep(sys.state, slot, ptr))
    case ProcessTerminate(slot) => Ended(sys, slot)
  }

  /** The state after all of `steps`, if each was allowed when its turn came. */
  ghost function Run(sys: System, steps: seq<Step>): Option<System>
    decreases |steps|
  {
    if steps == [] then Some(sys)
    else if Usable(sys) && Allowed(sys, steps[0]) then Run(Next(sys, steps[0]), steps[1..])
    else None
  }

  /** The state right after the kernel heap is created: nothing allocated, no process, no task. */
  ghost predicate Initial(sys: System) {
    && |sys.state.mem.table| == HEAP_BLOCKS && Records(sys.state.mem.table, map[])
    && sys.state.procs == map[] && sys.state.kernel == {} && sys.links == NO_LINKS && sys.tasks == []
  }

  lemma InitialInv(sys: System)
    requires Initial(sys)
    ensures SystemInv(sys, map[])
  {
    EmptyMemory(sys.state);
    hide Inv, Records;
    NoTasks();
  }

  lemma NoTasks()
    ensures Proper(NO_LINKS, [])
  {
  }

  lemma EmptyMemory(st: State)
    requires |st.mem.table| == HEAP_BLOCKS && Records(st.mem.table, map[]) && st.procs == map[] && st.kernel == {}
    ensures Inv(st, map[])
  {
    EmptyPool(st.mem.table);
    hide Sound, Pool, Records, ProcessOk, Held, Paged;
    NothingHeld(st);
  }

  lemma NothingHeld(st: State)
    requires st.procs == map[] && st.kernel == {} && Pool(st.mem.table) == map[]
    ensures AllPaged(st) && Owns(st, map[])
  {
    hide Pool, Held, Paged;
  }

  lemma InvMeansUsable(sys: System, o: map<word, Owner>)
    requires SystemInv(sys, o)
    ensures Usable(sys)
  {
    InvSound(sys.state, o);
    InvAllPaged(sys.state, o);
    hide Sound, Ready, Inv, Proper, AllPaged, Listed;
    forall s | s in sys.state.procs
      ensures Ready(sys.state.mem.frames, sys.state.procs[s]) && Listed(sys, s)
    {
      InvListed(sys, o, s);
    }
  }

  /** Every allowed step keeps the invariant. */
  lemma NextKeepsInv(sys: System, o: map<word, Owner>, step: Step)
    requires SystemInv(sys, o) && Usable(sys) && Allowed(sys, step)
    ensures exists o' :: SystemInv(Next(sys, step), o')
  {
    hide Inv, Proper, Sound, Ready, Requestable, HeadersInside, Load, InHeap, TaskStructs, Clean, Listed, KernelAlloc,
      KernelFree, Started, MallocStep, FreeStep, Ended, Paged, RecordsInHeap;
    match step
    case ProcessLoad(slot, program) =>
      LoadKeepsSystemInv(sys, o, slot, program);
      assert Next(sys, step) == Started(sys, slot, program);
    case ProcessTerminate(slot) =>
      EndedKeepsSystemInv(sys, o, slot);
      assert Next(sys, step) == Ended(sys, slot);
    case _ =>
      var u, o' := MemoryStepKeepsInv(sys, o, step);
      SameTasksKeepSystemInv(sys, o, u, o');
  }

  /** The steps that only allocate and free. */
  lemma MemoryStepKeepsInv(sys: System, o: map<word, Owner>, step: Step) returns (u: State, o': map<word, Owner>)
    requires SystemInv(sys, o) && Usable(sys) && Allowed(sys, step) && !step.ProcessLoad? && !step.ProcessTerminate?
    ensures Next(sys, step) == sys.(state := u) && Inv(u, o') && TaskStructs(u) == TaskStructs(sys.state)
  {
    hide Inv, Proper, Sound, Ready, Requestable, InHeap, TaskStructs, Clean, Listed, AllPaged, Kmalloc, KmallocAddress,
      Kfree, AddressToBlock, Malloc, Free, Paged, RecordsInHeap;
    var st := sys.state;
    match step
    case KernelMalloc(size) =>
      u := KernelAlloc(st, size);
      KernelAllocKeepsInv(st, o, size);
      SameTaskStructs(st, u);
      o' :| Inv(u, o');
    case KernelRelease(ptr) =>
      u := KernelFree(st, ptr);
      KernelFreeKeepsInv(st, o, ptr);
      SameTaskStructs(st, u);
      o' :| Inv(u, o');
    case ProcessMalloc(slot, size) =>
      InvPaged(st, o, slot);
      u := MallocStep(st, slot, size);
      MallocKeepsInv(st, o, slot, size);
      RecordsKeepTaskStructs(st, slot, u.mem, u.procs[slot].records, u.kernel);
      o' :| Inv(u, o');
    case ProcessFree(slot, ptr) =>
      InvPaged(st, o, slot);
      ReadyRecords(st.mem.frames, st.procs[slot]);
      u := FreeStep(st, slot, ptr);
      o' := FreeKeepsInv(st, o, slot, ptr);
      RecordsKeepTaskStructs(st, slot, u.mem, u.procs[slot].records, u.kernel);
  }

  lemma ReadyRecords(m: Frames, p: Process)
    requires Ready(m, p)
    ensures RecordsInHeap(p.records)
  {
  }

  lemma {:induction false} RunKeepsInv(sys: System, o: map<word, Owner>, steps: seq<Step>)
    requires SystemInv(sys, o) && Run(sys, steps).Some?
    ensures exists o' :: SystemInv(Run(sys, steps).value, o')
    decreases |steps|
  {
    hide SystemInv, Usable, Allowed, Next;
    if steps == [] {
      assert SystemInv(Run(sys, steps).value, o);
    } else {
      NextKeepsInv(sys, o, steps[0]);
      var o' :| SystemInv(Next(sys, steps[0]), o');
      RunKeepsInv(Next(sys, steps[0]), o', steps[1..]);
    }
  }

  // ---------- isolation ----------

  /** User mode may write page `q`: directory entry and table entry both allow it. */
  ghost predicate UserWritable(m: Frames, d: word, q: int)
    requires Paged(m, d) && 0 <= q < PAGES
  {
    Writable(m[d][q / ENTRIES]) && Writable(SpaceOf(m, d)[q])
  }

  ghost function FrameOf(m: Frames, d: word, q: int): word
    requires Paged(m, d) && 0 <= q < PAGES
  {
    Mask(SpaceOf(m, d)[q])
  }

  /** Blocks no program may write: kernel data, process, task and ELF structs, page directories and tables. */
  ghost predicate Protected(st: State, a: word)
    requires AllPaged(st)
  {
    a in st.kernel || exists s, k :: k in {StructKind, ElfKind, TaskKind, SpaceKind} && a in HeldBy(st, Of(s, k))
  }

  /** Frame `f` lies in a live block that process `s` has as its image, its stack or a record. */
  ghost predicate InOwnBlock(st: State, s: nat, f: word)
    requires AllPaged(st)
  {
    exists x, k :: k in {ImageKind, StackKind, RecordKind} && x in HeldBy(st, Of(s, k))
      && Spans(Pool(st.mem.table), x, f)
  }

  /**
   What a process can write lies in its own image, stack or records, so that no other process can write
   it and it holds none of the blocks that no program may write.
   */
  ghost predicate Isolated(st: State) {
    && AllPaged(st)
    && (forall s, q | s in st.procs && 0 <= q < PAGES && UserWritable(st.mem.frames, st.procs[s].dir, q) ::
          InOwnBlock(st, s, FrameOf(st.mem.frames, st.procs[s].dir, q)))
    && (forall s, r, p, q | s in st.procs && r in st.procs && s != r && 0 <= p < PAGES && 0 <= q < PAGES
          && UserWritable(st.mem.frames, st.procs[s].dir, p) && UserWritable(st.mem.frames, st.procs[r].dir, q) ::
          FrameOf(st.mem.frames, st.procs[s].dir, p) != FrameOf(st.mem.frames, st.procs[r].dir, q))
    && (forall s, p, a | s in st.procs && 0 <= p < PAGES && Protected(st, a)
          && UserWritable(st.mem.frames, st.procs[s].dir, p) ::
          !Spans(Pool(st.mem.table), a, FrameOf(st.mem.frames, st.procs[s].dir, p)))
  }

  /** A frame that a process can write lies in its own image, stack or one of its records. */
  lemma WritableFrameOwner(st: State, o: map<word, Owner>, s: nat, q: int) returns (x: word)
    requires Inv(st, o) && s in st.procs && 0 <= q < PAGES && Paged(st.mem.frames, st.procs[s].dir)
    requires UserWritable(st.mem.frames, st.procs[s].dir, q)
    ensures Spans(Pool(st.mem.table), x, FrameOf(st.mem.frames, st.procs[s].dir, q))
    ensures x in o && o[x].Of? && o[x].slot == s && o[x].kind in {ImageKind, StackKind, RecordKind}
  {
    hide Sound, Pool, Footprint, Paged, SpaceOf, RightSizes, Blocks;
    var pool, m, p := Pool(st.mem.table), st.mem.frames, st.procs[s];
    assert ProcessOk(pool, m, p);
    InvOwnsFixtures(st, o, s);
    var f := FrameOf(m, p.dir, q);
    assert OwnFrame(pool, p.image.memory, p.stack, p.records, f, q);
    if Spans(pool, p.image.memory, f) {
      x := p.image.memory;
    } else if Spans(pool, p.stack, f) {
      x := p.stack;
    } else {
      var i :| InRecord(p.records, i, q);
      x := p.records[i].ptr;
      RecordOwner(st, o, s, i);
      RecordSpans(st.mem.table, p.records, i, q);
    }
  }

  lemma WritableFrameIsOwn(st: State, o: map<word, Owner>, s: nat, q: int)
    requires Inv(st, o) && AllPaged(st) && s in st.procs && 0 <= q < PAGES
    requires UserWritable(st.mem.frames, st.procs[s].dir, q)
    ensures InOwnBlock(st, s, FrameOf(st.mem.frames, st.procs[s].dir, q))
  {
    hide Sound, Pool, Footprint, Paged, SpaceOf, ProcessOk, Spans, UserWritable, FrameOf, HeldBy;
    var x := WritableFrameOwner(st, o, s, q);
    OwnersOf(st, o, o[x], x);
    assert x in HeldBy(st, Of(s, o[x].kind));
  }

  lemma InvIsolates(st: State, o: map<word, Owner>)
    requires Inv(st, o)
    ensures Isolated(st)
  {
    hide Sound, Pool, Footprint, Paged, SpaceOf, ProcessOk, Spans, UserWritable, FrameOf, HeldBy, InOwnBlock, Protected;
    forall s, q | s in st.procs && 0 <= q < PAGES && UserWritable(st.mem.frames, st.procs[s].dir, q)
      ensures InOwnBlock(st, s, FrameOf(st.mem.frames, st.procs[s].dir, q))
    {
      WritableFrameIsOwn(st, o, s, q);
    }
    forall s, r, p, q | s in st.procs && r in st.procs && s != r && 0 <= p < PAGES && 0 <= q < PAGES
        && UserWritable(st.mem.frames, st.procs[s].dir, p) && UserWritable(st.mem.frames, st.procs[r].dir, q)
      ensures FrameOf(st.mem.frames, st.procs[s].dir, p) != FrameOf(st.mem.frames, st.procs[r].dir, q)
    {
      var x := WritableFrameOwner(st, o, s, p);
      var y := WritableFrameOwner(st, o, r, q);
      if FrameOf(st.mem.frames, st.procs[s].dir, p) == FrameOf(st.mem.frames, st.procs[r].dir, q) {
        SpansAreDisjoint(st.mem.table, x, y, FrameOf(st.mem.frames, st.procs[s].dir, p));
      }
    }
    forall s, p, a | s in st.procs && 0 <= p < PAGES && Protected(st, a)
        && UserWritable(st.mem.frames, st.procs[s].dir, p)
      ensures !Spans(Pool(st.mem.table), a, FrameOf(st.mem.frames, st.procs[s].dir, p))
    {
      var x := WritableFrameOwner(st, o, s, p);
      ProtectedOwner(st, o, a);
      if Spans(Pool(st.mem.table), a, FrameOf(st.mem.frames, st.procs[s].dir, p)) {
        SpansAreDisjoint(st.mem.table, x, a, FrameOf(st.mem.frames, st.procs[s].dir, p));
      }
    }
  }

  lemma ProtectedOwner(st: State, o: map<word, Owner>, a: word)
    requires Inv(st, o) && AllPaged(st) && Protected(st, a)
    ensures a in o && (o[a] == Kernel || o[a].kind in {StructKind, ElfKind, TaskKind, SpaceKind})
  {
    hide Sound, Pool, Footprint, Paged, SpaceOf, ProcessOk, Held, HeldBy;
    assert Owns(st, o);
    if a in st.kernel {
      assert a in HeldBy(st, Kernel) by {
        KernelHolds(st, a);
      }
      OwnersOf(st, o, Kernel, a);
    } else {
      var s, k :| k in {StructKind, ElfKind, TaskKind, SpaceKind} && a in HeldBy(st, Of(s, k));
      OwnersOf(st, o, Of(s, k), a);
    }
  }

  lemma KernelHolds(st: State, a: word)
    requires AllPaged(st) && a in st.kernel
    ensures a in HeldBy(st, Kernel)
  {
    hide Paged, Held;
  }

  /**
   Write isolation over whole runs: after any run from the initial state, a process can write frames
   of its own image, stack and records only. So no two can write the same frame, and none can write a
   kernel block, a process, task or ELF struct, a page directory or a page table.
   */
  lemma RunsAreIsolated(sys: System, steps: seq<Step>)
    requires Initial(sys) && Run(sys, steps).Some?
    ensures Isolated(Run(sys, steps).value.state)
  {
    hide Inv, Proper, Isolated, Run, Initial, TaskStructs;
    InitialInv(sys);
    RunKeepsInv(sys, map[], steps);
    var o :| SystemInv(Run(sys, steps).value, o);
    InvIsolates(Run(sys, steps).value.state, o);
  }

  /** No reachable state traps the kernel: what its operations rely on always holds. */
  lemma RunsStayUsable(sys: System, steps: seq<Step>)
    requires Initial(sys) && Run(sys, steps).Some?
    ensures Usable(Run(sys, steps).value)
  {
    hide SystemInv, Usable, Run, Initial;
    InitialInv(sys);
    RunKeepsInv(sys, map[], steps);
    var o :| SystemInv(Run(sys, steps).value, o);
    InvMeansUsable(Run(sys, steps).value, o);
  }

  /** After any run the task list holds exactly the tasks of the live processes, in order and properly linked. */
  lemma RunsKeepTheList(sys: System, steps: seq<Step>)
    requires Initial(sys) && Run(sys, steps).Some?
    ensures var u := Run(sys, steps).value;
            Proper(u.links, u.tasks) && forall t :: t in u.tasks <==> t in TaskStructs(u.state)
  {
    hide Inv, Proper, Run, Initial, TaskStructs;
    InitialInv(sys);
    RunKeepsInv(sys, map[], steps);
  }

  /**
   In any reachable state, terminating a process leaves the list in order and the page tables of all
   others as they are exactly when it is clean.
   */
  lemma RunsEndExactlyWhen(sys: System, steps: seq<Step>, slot: nat)
    requires Initial(sys) && Run(sys, steps).Some? && slot in Run(sys, steps).value.state.procs
    ensures var u := Run(sys, steps).value;
            && Usable(u)
            && (Proper(Ended(u, slot).links, Ended(u, slot).tasks) && OthersUntouched(u, slot, Ended(u, slot).state)
                <==> Clean(u, slot))
  {
    hide SystemInv, Run, Initial, Proper, OthersUntouched, Clean, Ended, Sound, Ready, AllPaged, Listed;
    InitialInv(sys);
    RunKeepsInv(sys, map[], steps);
    var u := Run(sys, steps).value;
    var o :| SystemInv(u, o);
    InvMeansUsable(u, o);
    EndedCleanExactlyWhen(u, o, slot);
  }

  // ---------- records, heap and page tables agree ----------

  /** Each record's allocation has exactly the blocks that its size fills or begins. */
  ghost predicate RecordsTight(pool: map<word, nat>, r: seq<Allocation>) {
    forall i :: 0 <= i < |r| && r[i].ptr != 0 ==>
      r[i].ptr in pool && (pool[r[i].ptr] - 1) * BLOCK_SIZE < r[i].size <= pool[r[i].ptr] * BLOCK_SIZE
  }

  /**
   Each record names a live heap allocation of the right size, mapped onto itself and
   writeable; no other record, of this or another process, names the same allocation.
   */
  ghost predicate RecordsAgree(st: State) {
    && AllPaged(st)
    && (forall s | s in st.procs ::
          && RecordsValid(Pool(st.mem.table), st.procs[s].records)
          && RecordsTight(Pool(st.mem.table), st.procs[s].records)
          && RecordsMapped(SpaceOf(st.mem.frames, st.procs[s].dir), st.procs[s].records))
    && (forall s, r, a | s in st.procs && r in st.procs && a in RecordPointers(st.procs[s].records)
          && a in RecordPointers(st.procs[r].records) :: s == r)
  }

  lemma ValidMeansTight(t: Table, r: seq<Allocation>)
    requires Sound(t) && RecordsValid(Pool(t), r)
    ensures RecordsTight(Pool(t), r)
  {
    hide Sound, Pool, Blocks;
    forall i | 0 <= i < |r| && r[i].ptr != 0
      ensures (Pool(t)[r[i].ptr] - 1) * BLOCK_SIZE < r[i].size <= Pool(t)[r[i].ptr] * BLOCK_SIZE
    {
      SpansAreInHeap(t, r[i].ptr);
      BlocksCover(r[i].size);
      BlocksAreTight(r[i].size);
    }
  }

  lemma InvRecordsAgree(st: State, o: map<word, Owner>)
    requires Inv(st, o)
    ensures RecordsAgree(st)
  {
    hide Sound, Pool, Footprint, Paged, SpaceOf, RightSizes, Blocks, RecordsValid, RecordsTight, RecordsMapped,
      PagesOwned, RecordPointers;
    forall s | s in st.procs
      ensures RecordsValid(Pool(st.mem.table), st.procs[s].records)
      ensures RecordsTight(Pool(st.mem.table), st.procs[s].records)
      ensures RecordsMapped(SpaceOf(st.mem.frames, st.procs[s].dir), st.procs[s].records)
    {
      assert ProcessOk(Pool(st.mem.table), st.mem.frames, st.procs[s]);
      ValidMeansTight(st.mem.table, st.procs[s].records);
    }
    forall s, r, a | s in st.procs && r in st.procs && a in RecordPointers(st.procs[s].records)
        && a in RecordPointers(st.procs[r].records)
      ensures s == r
    {
      HeldIsOwned(st, o, s, RecordKind, a);
      HeldIsOwned(st, o, r, RecordKind, a);
    }
  }

  lemma RunsRecordsAgree(sys: System, steps: seq<Step>)
    requires Initial(sys) && Run(sys, steps).Some?
    ensures RecordsAgree(Run(sys, steps).value.state)
  {
    hide Inv, Proper, RecordsAgree, Run, Initial, TaskStructs;
    InitialInv(sys);
    RunKeepsInv(sys, map[], steps);
    var o :| SystemInv(Run(sys, steps).value, o);
    InvRecordsAgree(Run(sys, steps).value.state, o);
  }

  /** No block is lost or shared: every live allocation has exactly one holder, every held block is live. */
  ghost predicate Accounted(st: State) {
    && AllPaged(st)
    && (forall a: word :: a in Pool(st.mem.table) ==> exists w :: a in HeldBy(st, w))
    && (forall a: word, w :: a in HeldBy(st, w) ==> a in Pool(st.mem.table))
    && (forall a: word, w, v :: a in HeldBy(st, w) && a in HeldBy(st, v) ==> w == v)
  }

  lemma InvAccounts(st: State, o: map<word, Owner>)
    requires Inv(st, o)
    ensures Accounted(st)
  {
    hide Sound, Pool, Paged, ProcessOk, HeldBy;
    assert o.Keys == Pool(st.mem.table).Keys;
    forall a: word | a in Pool(st.mem.table)
      ensures exists w :: a in HeldBy(st, w)
    {
      assert a in HeldBy(st, o[a]);
    }
    forall a: word, w, v | a in HeldBy(st, w) && a in HeldBy(st, v)
      ensures w == v
    {
      OwnersOf(st, o, w, a);
      OwnersOf(st, o, v, a);
    }
  }

  lemma RunsAccount(sys: System, steps: seq<Step>)
    requires Initial(sys) && Run(sys, steps).Some?
    ensures Accounted(Run(sys, steps).value.state)
  {
    hide Inv, Proper, Accounted, Run, Initial, TaskStructs;
    InitialInv(sys);
    RunKeepsInv(sys, map[], steps);
    var o :| SystemInv(Run(sys, steps).value, o);
    InvAccounts(Run(sys, steps).value.state, o);
  }

  /**
   Terminating a process in any reachable state, cleanly or not, gives back all it holds, in every
   role: afterwards exactly its own struct is still allocated, for good.
   */
  lemma TerminateReturnsAll(sys: System, steps: seq<Step>, slot: nat)
    requires Initial(sys) && Run(sys, steps).Some? && slot in Run(sys, steps).value.state.procs
    ensures var u := Run(sys, steps).value;
            && Usable(u)
            && var p := u.state.procs[slot];
               Pool(Ended(u, slot).state.mem.table)
                 == Pool(u.state.mem.table) - (AllHeld(u.state.mem.frames, p) - {p.self})
  {
    hide Inv, Proper, Run, Initial, Pool, Paged, Fixtures, RecordPointers, AllHeld, TerminateStep, Sound, Ready, Listed,
      TaskStructs, Removed;
    InitialInv(sys);
    RunKeepsInv(sys, map[], steps);
    var u := Run(sys, steps).value;
    var o :| SystemInv(u, o);
    InvMeansUsable(u, o);
    TerminateKeepsInv(u.state, o, slot);
    var p := u.state.procs[slot];
    SelfNotElsewhere(u.state, o, slot);
    WithoutSelf(u.state.mem.frames, p);
  }

  lemma WithoutSelf(m: Frames, p: Process)
    requires Paged(m, p.dir) && p.self !in Fixtures(m, p) + RecordPointers(p.records)
    ensures AllHeld(m, p) - {p.self} == Fixtures(m, p) + RecordPointers(p.records)
  {
    hide Paged, Fixtures, RecordPointers;
  }

  lemma SelfNotElsewhere(st: State, o: map<word, Owner>, slot: nat)
    requires Inv(st, o) && slot in st.procs
    ensures Paged(st.mem.frames, st.procs[slot].dir)
    ensures st.procs[slot].self !in Fixtures(st.mem.frames, st.procs[slot]) + RecordPointers(st.procs[slot].records)
  {
    hide Sound, Pool, Paged, Fixtures, RecordPointers, FixturesApart, ProcessOk, SpaceBlocks;
    InvOwnsFixtures(st, o, slot);
    InvKeepsApart(st, o, slot);
    var m, p := st.mem.frames, st.procs[slot];
    SelfIsApart(Pool(st.mem.table), m, p);
    if p.self in RecordPointers(p.records) {
      HeldIsOwned(st, o, slot, RecordKind, p.self);
    }
  }

  // ---------- what one call undoes ----------

  /** Freeing a non-null pointer without a record, so also freeing twice, changes nothing at all. */
  lemma FreeUnrecorded(st: State, slot: nat, ptr: word)
    requires slot in st.procs && Paged(st.mem.frames, st.procs[slot].dir) && RecordsInHeap(st.procs[slot].records)
    requires ptr != 0
    requires forall i :: 0 <= i < |st.procs[slot].records| ==> st.procs[slot].records[i].ptr != ptr
    ensures FreeStep(st, slot, ptr) == st
  {
    assert st.procs[slot := st.procs[slot]] == st.procs;
  }

  lemma FreeTwice(st: State, o: map<word, Owner>, slot: nat, ptr: word)
    requires Inv(st, o) && slot in st.procs && ptr != 0 && RecordsInHeap(st.procs[slot].records)
    ensures var u := FreeStep(st, slot, ptr);
            && Paged(u.mem.frames, u.procs[slot].dir) && RecordsInHeap(u.procs[slot].records)
            && FreeStep(u, slot, ptr) == u
  {
    hide Sound, Pool, Paged, ProcessOk, Owns, MapTo, Kfree, AddressToBlock, Held;
    InvPaged(st, o, slot);
    var o' := FreeKeepsInv(st, o, slot, ptr);
    var u := FreeStep(st, slot, ptr);
    InvPaged(u, o', slot);
    NoLongerRecorded(st, o, slot, ptr);
    FreeUnrecorded(u, slot, ptr);
  }

  lemma NoLongerRecorded(st: State, o: map<word, Owner>, slot: nat, ptr: word)
    requires Inv(st, o) && slot in st.procs && ptr != 0 && RecordsInHeap(st.procs[slot].records)
    requires Paged(st.mem.frames, st.procs[slot].dir)
    ensures var r := FreeStep(st, slot, ptr).procs[slot].records;
            forall i :: 0 <= i < |r| ==> r[i].ptr != ptr
  {
    hide Sound, Pool, Paged, ProcessOk, Owns, MapTo, Kfree, AddressToBlock, Held, RecordsChange, RecordPointers;
    if IndexOf(st.procs[slot].records, ptr, 0) >= 0 {
      FreeChangesRecords(st, o, slot, ptr);
    }
  }

  /** A malloc that succeeds, then a free of its result: same heap table byte for byte, same records. */
  lemma MallocThenFree(st: State, o: map<word, Owner>, slot: nat, size: word)
    requires Inv(st, o) && slot in st.procs && Requestable(st.mem.table, size)
    requires Paged(st.mem.frames, st.procs[slot].dir)
    requires KmallocAddress(st.mem.table, Blocks(size)) != 0 && IndexOf(st.procs[slot].records, 0, 0) >= 0
    ensures var u, ptr := MallocStep(st, slot, size), KmallocAddress(st.mem.table, Blocks(size));
            && Paged(u.mem.frames, u.procs[slot].dir) && RecordsInHeap(u.procs[slot].records)
            && FreeStep(u, slot, ptr).mem.table == st.mem.table
            && FreeStep(u, slot, ptr).procs[slot].records == st.procs[slot].records
  {
    hide Sound, Pool, Paged, ProcessOk, Owns, Held, RecordsChange, RecordPointers, Malloc, Kmalloc, KmallocAddress,
      Overruns, Blocks, Unjoin;
    var ptr, p := KmallocAddress(st.mem.table, Blocks(size)), st.procs[slot];
    MallocChangesRecords(st, o, slot, size);
    var res, u := Malloc(st.mem, p.dir, p.records, size), MallocStep(st, slot, size);
    var o1 := o[ptr := Of(slot, RecordKind)];
    RecordsChangeKeepsInv(st, o, slot, res.mem, res.records, o1);
    MallocResults(st, o, slot, size);
    InvPaged(u, o1, slot);
    InvMeansReady(u, o1, slot);
    ReadyRecords(u.mem.frames, u.procs[slot]);
    var o2 := FreeKeepsInv(u, o1, slot, ptr);
    InvSound(st, o);
    InvSound(FreeStep(u, slot, ptr), o2);
    assert ptr != 0 && ptr in RecordPointers(u.procs[slot].records);
    RecordsBack(st, o, u, o1, slot, size);
    AddThenRemove(Pool(st.mem.table), ptr, Blocks(size));
    SamePoolSameTable(FreeStep(u, slot, ptr).mem.table, st.mem.table);
  }

  lemma UnjoinNew(r: seq<Allocation>, k: int, ptr: word, size: word)
    requires 0 <= k < |r| && r[k] == Allocation(0, 0) && forall i :: 0 <= i < |r| ==> r[i].ptr != ptr
    ensures Unjoin(r[k := Allocation(ptr, size)], ptr) == r
  {
  }

  lemma EmptyRecord(st: State, o: map<word, Owner>, slot: nat, k: int)
    requires Inv(st, o) && slot in st.procs && 0 <= k < |st.procs[slot].records| && st.procs[slot].records[k].ptr == 0
    ensures st.procs[slot].records[k] == Allocation(0, 0)
  {
    hide Sound, Pool, Paged, Owns, Blocks, RightSizes, RecordsMapped, PagesOwned, SpaceOf, Footprint;
    assert ProcessOk(Pool(st.mem.table), st.mem.frames, st.procs[slot]);
  }

  lemma RecordsBack(st: State, o: map<word, Owner>, u: State, o1: map<word, Owner>, slot: nat, size: word)
    requires Inv(st, o) && slot in st.procs && Requestable(st.mem.table, size)
    requires Paged(st.mem.frames, st.procs[slot].dir)
    requires KmallocAddress(st.mem.table, Blocks(size)) != 0 && IndexOf(st.procs[slot].records, 0, 0) >= 0
    requires u == MallocStep(st, slot, size) && Inv(u, o1) && Paged(u.mem.frames, u.procs[slot].dir)
    requires RecordsInHeap(u.procs[slot].records)
    ensures FreeStep(u, slot, KmallocAddress(st.mem.table, Blocks(size))).procs[slot].records == st.procs[slot].records
  {
    hide Inv, Paged, RecordsChange, RecordPointers, Kmalloc, KmallocAddress, Overruns, Blocks, Unjoin, MapTo, Free,
      Pool, InHeap;
    var ptr, r := KmallocAddress(st.mem.table, Blocks(size)), st.procs[slot].records;
    var k := IndexOf(r, 0, 0);
    MallocChangesRecords(st, o, slot, size);
    assert u.procs[slot].records == r[k := Allocation(ptr, size)];
    assert r[k := Allocation(ptr, size)][k].ptr == ptr;
    FreeChangesRecords(u, o1, slot, ptr);
    EmptyRecord(st, o, slot, k);
    NotRecordedBefore(st, o, slot, size);
    UnjoinNew(r, k, ptr, size);
  }

  lemma NotRecordedBefore(st: State, o: map<word, Owner>, slot: nat, size: word)
    requires Inv(st, o) && slot in st.procs && Requestable(st.mem.table, size)
    requires Paged(st.mem.frames, st.procs[slot].dir)
    requires KmallocAddress(st.mem.table, Blocks(size)) != 0 && IndexOf(st.procs[slot].records, 0, 0) >= 0
    ensures forall i :: 0 <= i < |st.procs[slot].records| ==>
              st.procs[slot].records[i].ptr != KmallocAddress(st.mem.table, Blocks(size))
  {
    hide Inv, Paged, Kmalloc, KmallocAddress, Overruns, Blocks, Pool, InHeap, MallocStep;
    MallocResults(st, o, slot, size);
  }

  lemma PointersAreHeld(m: Frames, p: Process)
    requires Paged(m, p.dir)
    ensures Held(m, p, RecordKind) == RecordPointers(p.records)
  {
    hide Paged, RecordPointers;
  }

  lemma AddThenRemove(pool: map<word, nat>, ptr: word, n: nat)
    requires ptr !in pool
    ensures pool[ptr := n] - {ptr} == pool
  {
  }

  /** The pool and the recorded pointers right after a successful malloc. */
  lemma MallocResults(st: State, o: map<word, Owner>, slot: nat, size: word)
    requires Inv(st, o) && slot in st.procs && Requestable(st.mem.table, size)
    requires Paged(st.mem.frames, st.procs[slot].dir)
    requires KmallocAddress(st.mem.table, Blocks(size)) != 0 && IndexOf(st.procs[slot].records, 0, 0) >= 0
    ensures var u, ptr := MallocStep(st, slot, size), KmallocAddress(st.mem.table, Blocks(size));
            && ptr !in Pool(st.mem.table) && Pool(u.mem.table) == Pool(st.mem.table)[ptr := Blocks(size)]
            && RecordPointers(u.procs[slot].records) == RecordPointers(st.procs[slot].records) + {ptr}
            && ptr !in RecordPointers(st.procs[slot].records)
  {
    hide Sound, Pool, Paged, ProcessOk, Owns, Held, RecordPointers, Kmalloc, KmallocAddress, Overruns, Blocks, MapTo,
      InHeap, Inv;
    var t, r := st.mem.table, st.procs[slot].records;
    var ptr := KmallocAddress(t, Blocks(size));
    InvSound(st, o);
    KmallocAdds(t, Blocks(size));
    MallocChangesRecords(st, o, slot, size);
    PointersAfterMalloc(r, IndexOf(r, 0, 0), ptr, size);
    if ptr in RecordPointers(r) {
      PointersAreHeld(st.mem.frames, st.procs[slot]);
      HeldIsOwned(st, o, slot, RecordKind, ptr);
    }
  }
}
