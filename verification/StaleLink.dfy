/**
 A run on which a stale back link does harm: the freed block of the first task becomes the page directory
 of a later process, and unlinking the second task then writes into that directory.
 */
module StaleLink {
  import opened Wrappers
  import opened Words
  import opened HeapTable
  import opened Heap
  import opened KernelHeap
  import opened PageTables
  import opened AddressSpace
  import opened ProcessMemory
  import opened KernelRun
  import opened TaskList
  import opened KernelSystem
  import opened Isolation
  import opened Layout

  // ---------- loading into a window ----------

  lemma LoadWithoutHeaders(mem: Memory, program: Program, a: nat, e: nat)
    requires Window(mem.table, a, e) && program.Elf? && program.headers == [] && program.calls == NO_CALLS
    requires Blocks(program.size) >= 1
    requires a + ElfBlocks(Blocks(program.size)) <= e
    ensures Sound(mem.table) && Load(mem, program).Some? && LaidOut(Load(mem, program).value, program.size, a, e)
  {
    ProcessFromWindow(mem, program, a, e);
    hide Sound, AllocateProcess, MapStack, Paged, Window, Blocks, AddressOf;
  }

  /** `v` is `sys` with a process in slot `slot` that has its blocks one after the other from block `a` on. */
  ghost predicate Placed(sys: System, v: System, slot: nat, n: nat, a: nat, e: nat) {
    && slot in v.state.procs && v.state.kernel == sys.state.kernel
    && a + ElfBlocks(n) <= HEAP_BLOCKS && Window(v.state.mem.table, a + ElfBlocks(n), e)
    && var p := v.state.procs[slot];
       && p.self == AddressOf(a) && p.task == AddressOf(a + 8 + n) && p.dir == AddressOf(a + 9 + n)
       && p.records == EmptyRecords()
       && v.state.procs == sys.state.procs[slot := p]
       && v.tasks == sys.tasks + [p.task] && v.links == TaskList.Added(sys.links, p.task)
  }

  lemma StartedIsPlaced(sys: System, o: map<word, Owner>, slot: nat, program: Program, a: nat, e: nat)
    requires SystemInv(sys, o) && slot !in sys.state.procs && slot < MAX_PROCESSES && HeadersInside(program)
    requires Sound(sys.state.mem.table) && Load(sys.state.mem, program).Some?
    requires LaidOut(Load(sys.state.mem, program).value, program.size, a, e)
    ensures Placed(sys, Started(sys, slot, program), slot, Blocks(program.size), a, e)
  {
    hide SystemInv, HeadersInside, Window, Sound, Load, Blocks, AddressOf, WithStored, TaskList.Added, Paged, Agree,
      Footprint;
    StartedWritesFrames(sys, o, slot, program);
    NothingLeaked(sys.state.kernel);
  }

  lemma NothingLeaked(kernel: set<word>)
    ensures kernel + {} == kernel
  {
  }

  /** A process of an ELF file without headers, loaded into the window. */
  lemma LoadAt(sys: System, o: map<word, Owner>, slot: nat, program: Program, a: nat, e: nat)
    returns (v: System, o': map<word, Owner>)
    requires SystemInv(sys, o) && slot < MAX_PROCESSES && slot !in sys.state.procs && Window(sys.state.mem.table, a, e)
    requires program.Elf? && program.headers == [] && program.calls == NO_CALLS && 1 <= program.size <= 0xffff_e000
    requires a + ElfBlocks(Blocks(program.size)) <= e
    ensures Usable(sys) && Allowed(sys, ProcessLoad(slot, program)) && v == Next(sys, ProcessLoad(slot, program))
    ensures SystemInv(v, o') && Placed(sys, v, slot, Blocks(program.size), a, e)
  {
    hide SystemInv, Window, Sound, Load, Blocks, Usable, Started, LaidOut, Placed, AllPaged, Ready, Listed, Clean;
    BlocksCover(program.size);
    InvMeansUsable(sys, o);
    LoadWithoutHeaders(sys.state.mem, program, a, e);
    LoadKeepsSystemInv(sys, o, slot, program);
    StartedIsPlaced(sys, o, slot, program, a, e);
    v := Next(sys, ProcessLoad(slot, program));
    o' :| SystemInv(v, o');
  }

  // ---------- the window that a termination opens ----------

  lemma PoolOfBlock(t: Table, s: nat)
    requires Sound(t)
    ensures s in Decode(t) <==> s < HEAP_BLOCKS && AddressOf(s) in Pool(t)
    ensures s in Decode(t) ==> Pool(t)[AddressOf(s)] == Decode(t)[s]
  {
    hide RunLength;
  }

  /** Block `i` belongs to the allocation that starts at block `s`. */
  ghost predicate BlockOfAllocation(t: Table, s: nat, i: nat) {
    Covers(Decode(t), s, i)
  }

  lemma TakenExactlyWhen(t: Table, i: nat)
    requires Sound(t) && i < HEAP_BLOCKS
    ensures |t| == HEAP_BLOCKS && (!IsFree(t[i]) <==> exists s: nat :: BlockOfAllocation(t, s, i))
  {
    hide Decode;
    FreeMeansUncovered(t, Decode(t), i);
    if s :| Covers(Decode(t), s, i) {
      assert BlockOfAllocation(t, s, i);
    }
  }

  lemma OneAllocation(t: Table, s: nat, r: nat, i: nat)
    requires Sound(t) && BlockOfAllocation(t, s, i) && BlockOfAllocation(t, r, i)
    ensures s == r
  {
    hide Decode;
    if s != r {
      AllocationsAreDisjoint(t, Decode(t), s, r);
    }
  }

  /** An allocation of one table in another that has the same entry for it. */
  lemma SameEntry(t: Table, u: Table, s: nat, i: nat)
    requires Sound(t) && Sound(u) && BlockOfAllocation(t, s, i)
    requires s < HEAP_BLOCKS ==>
               AddressOf(s) in Pool(t) && AddressOf(s) in Pool(u) && Pool(u)[AddressOf(s)] == Pool(t)[AddressOf(s)]
    ensures BlockOfAllocation(u, s, i)
  {
    PoolOfBlock(t, s);
    PoolOfBlock(u, s);
    hide Decode, Pool, Sound;
  }

  /**
   Table `t` has nothing free before block `a`, and all that was live then was freed but for the first
   allocation, of `n` blocks; whatever came later lies behind. So blocks `n` to `a` are the first free ones.
   */
  lemma FreedWindow(t: Table, later: Table, u: Table, n: nat, a: nat)
    requires Sound(t) && Sound(later) && Sound(u) && n <= a <= HEAP_BLOCKS
    requires |t| == HEAP_BLOCKS && forall i :: 0 <= i < a ==> !IsFree(t[i])
    requires forall x :: x in Pool(t) ==> x in Pool(later) && Pool(later)[x] == Pool(t)[x]
    requires AddressOf(0) in Pool(t) && Pool(t)[AddressOf(0)] == n
    requires Pool(u) == Pool(later) - (Pool(t).Keys - {AddressOf(0)})
    ensures Window(u, n, a)
  {
    assert |u| == HEAP_BLOCKS by {
      TakenExactlyWhen(u, 0);
    }
    forall i | 0 <= i < n
      ensures !IsFree(u[i])
    {
      PoolOfBlock(u, 0);
      assert BlockOfAllocation(u, 0, i);
      TakenExactlyWhen(u, i);
    }
    forall i | n <= i < a
      ensures IsFree(u[i])
    {
      StillFree(t, later, u, n, a, i);
    }
  }

  lemma StillFree(t: Table, later: Table, u: Table, n: nat, a: nat, i: nat)
    requires Sound(t) && Sound(later) && Sound(u) && n <= i < a <= HEAP_BLOCKS && |u| == HEAP_BLOCKS
    requires |t| == HEAP_BLOCKS && !IsFree(t[i])
    requires forall x :: x in Pool(t) ==> x in Pool(later) && Pool(later)[x] == Pool(t)[x]
    requires AddressOf(0) in Pool(t) && Pool(t)[AddressOf(0)] == n
    requires Pool(u) == Pool(later) - (Pool(t).Keys - {AddressOf(0)})
    ensures IsFree(u[i])
  {
    hide Decode, Pool, Sound, BlockOfAllocation, AddressOf;
    TakenExactlyWhen(u, i);
    TakenExactlyWhen(t, i);
    if !IsFree(u[i]) {
      var s: nat :| BlockOfAllocation(u, s, i);
      var r: nat :| BlockOfAllocation(t, r, i);
      CameLater(t, later, u, n, s, i);
      SameAllocation(t, later, s, r, i);
    }
  }

  /** What covers a block behind the first allocation was not live in `t`. */
  lemma CameLater(t: Table, later: Table, u: Table, n: nat, s: nat, i: nat)
    requires Sound(t) && Sound(later) && Sound(u) && n <= i && BlockOfAllocation(u, s, i)
    requires forall x :: x in Pool(t) ==> x in Pool(later) && Pool(later)[x] == Pool(t)[x]
    requires AddressOf(0) in Pool(t) && Pool(t)[AddressOf(0)] == n
    requires Pool(u) == Pool(later) - (Pool(t).Keys - {AddressOf(0)})
    ensures BlockOfAllocation(later, s, i) && s < HEAP_BLOCKS && AddressOf(s) !in Pool(t)
  {
    PoolOfBlock(u, s);
    PoolOfBlock(u, 0);
    hide Decode, Pool, Sound, AddressOf;
    SameEntry(u, later, s, i);
    DifferentBlocks(s, 0);
  }

  lemma SameAllocation(t: Table, later: Table, s: nat, r: nat, i: nat)
    requires Sound(t) && Sound(later) && BlockOfAllocation(later, s, i) && BlockOfAllocation(t, r, i)
    requires forall x :: x in Pool(t) ==> x in Pool(later) && Pool(later)[x] == Pool(t)[x]
    ensures s < HEAP_BLOCKS && AddressOf(s) in Pool(t)
  {
    PoolOfBlock(t, r);
    hide Decode, Pool, Sound;
    SameEntry(t, later, r, i);
    OneAllocation(later, s, r, i);
  }

  // ---------- what a load adds to ----------

  lemma LoadOnlyAdds(sys: System, slot: nat, program: Program, x: word)
    requires Sound(sys.state.mem.table) && Load(sys.state.mem, program).Some? && HeadersInside(program)
    requires x in Pool(sys.state.mem.table)
    ensures var u := Started(sys, slot, program).state.mem.table;
            x in Pool(u) && Pool(u)[x] == Pool(sys.state.mem.table)[x]
  {
    hide Sound, Pool, Load, HeadersInside, Stored, TaskList.Added;
    LoadIsFresh(sys.state, program);
  }

  lemma HeldInSomeRole(m: Frames, p: Process, a: word)
    requires Paged(m, p.dir)
    ensures a in AllHeld(m, p) <==> exists k :: a in Held(m, p, k)
  {
    hide Paged, RecordPointers, SpaceBlocks;
    assert a in AllHeld(m, p) ==>
        a in Held(m, p, ImageKind) || a in Held(m, p, ElfKind) || a in Held(m, p, StackKind)
          || a in Held(m, p, SpaceKind)
        || a in Held(m, p, TaskKind) || a in Held(m, p, StructKind) || a in Held(m, p, RecordKind);
  }

  /** With one process and no block of the kernel's, what is live is what the process holds. */
  lemma OnlyProcessHolds(st: State, o: map<word, Owner>, slot: nat)
    requires Inv(st, o) && st.procs.Keys == {slot} && st.kernel == {}
    ensures Paged(st.mem.frames, st.procs[slot].dir)
    ensures AllHeld(st.mem.frames, st.procs[slot]) == Pool(st.mem.table).Keys
  {
    hide Inv, Pool, Paged, AllHeld;
    InvPaged(st, o, slot);
    forall a
      ensures a in AllHeld(st.mem.frames, st.procs[slot]) <==> a in Pool(st.mem.table)
    {
      HeldOrDead(st, o, slot, a);
    }
  }

  lemma HeldOrDead(st: State, o: map<word, Owner>, slot: nat, a: word)
    requires Inv(st, o) && st.procs.Keys == {slot} && st.kernel == {}
    requires Paged(st.mem.frames, st.procs[slot].dir)
    ensures a in AllHeld(st.mem.frames, st.procs[slot]) <==> a in Pool(st.mem.table)
  {
    hide Sound, Pool, Paged, Held, ProcessOk, AllHeld;
    var m, p := st.mem.frames, st.procs[slot];
    HeldInSomeRole(m, p, a);
    if a in AllHeld(m, p) {
      var k :| a in Held(m, p, k);
      HeldIsOwned(st, o, slot, k, a);
    }
    if a in Pool(st.mem.table) {
      OwnersOf(st, o, o[a], a);
    }
  }

  /** A later load leaves what a process holds alone. */
  lemma StillHolds(sys: System, o: map<word, Owner>, slot: nat, program: Program, s: nat)
    requires SystemInv(sys, o) && slot !in sys.state.procs && slot < MAX_PROCESSES && s in sys.state.procs
    requires Sound(sys.state.mem.table) && Load(sys.state.mem, program).Some? && HeadersInside(program)
    ensures Paged(sys.state.mem.frames, sys.state.procs[s].dir)
    ensures Paged(Started(sys, slot, program).state.mem.frames, sys.state.procs[s].dir)
    ensures AllHeld(Started(sys, slot, program).state.mem.frames, sys.state.procs[s])
            == AllHeld(sys.state.mem.frames, sys.state.procs[s])
  {
    hide SystemInv, Sound, Load, HeadersInside, Started, Paged, Held, AllHeld;
    var m, n, p := sys.state.mem.frames, Started(sys, slot, program).state.mem.frames, sys.state.procs[s];
    forall k
      ensures Paged(m, p.dir) && Paged(n, p.dir) && Held(n, p, k) == Held(m, p, k)
    {
      StartedKeepsHeld(sys, o, slot, program, s, k);
    }
    assert Paged(m, p.dir) && Paged(n, p.dir) by {
      StartedKeepsHeld(sys, o, slot, program, s, StructKind);
    }
    forall a
      ensures a in AllHeld(n, p) <==> a in AllHeld(m, p)
    {
      HeldInSomeRole(m, p, a);
      HeldInSomeRole(n, p, a);
    }
  }

  // ---------- the run ----------

  const FIVE_BLOCKS := Elf(20480, [], NO_CALLS)
  const ONE_BLOCK := Elf(4096, [], NO_CALLS)

  lemma ProgramBlocks()
    ensures Blocks(20480) == 5 && Blocks(4096) == 1
  {
  }

  /** Process 0, alone, in blocks 0 to `a`; its task is in block `t`. */
  ghost predicate OneProcess(sys: System, o: map<word, Owner>, a: nat, t: nat) {
    && a <= HEAP_BLOCKS && t < a
    && SystemInv(sys, o) && sys.state.procs.Keys == {0} && sys.state.kernel == {}
    && Window(sys.state.mem.table, a, HEAP_BLOCKS)
    && sys.state.procs[0].self == AddressOf(0) && sys.tasks == [AddressOf(t)] && sys.state.procs[0].task == AddressOf(t)
    && sys.links == TaskList.Added(NO_LINKS, AddressOf(t))
  }

  /** The first process, of an ELF file with `n` blocks. */
  lemma LoadFirst(sys: System, program: Program, n: nat) returns (v: System, o: map<word, Owner>)
    requires Initial(sys) && program.Elf? && program.headers == [] && program.calls == NO_CALLS
    requires 1 <= program.size <= 0xffff_e000 && n == Blocks(program.size) && ElfBlocks(n) <= HEAP_BLOCKS
    ensures Usable(sys) && Allowed(sys, ProcessLoad(0, program)) && v == Next(sys, ProcessLoad(0, program))
    ensures OneProcess(v, o, ElfBlocks(n), 8 + n) && v.state.procs[0].records == EmptyRecords()
  {
    hide SystemInv, Window, Usable, Next, Allowed, AddressOf, Blocks, Records, Placed, EmptyRecords;
    InitialInv(sys);
    InitialWindow(sys.state.mem.table);
    v, o := LoadAt(sys, map[], 0, program, 0, HEAP_BLOCKS);
    PlacedFirst(sys, v, n);
  }

  lemma PlacedFirst(sys: System, v: System, n: nat)
    requires sys.state.procs == map[] && sys.state.kernel == {} && sys.tasks == [] && sys.links == NO_LINKS
    requires Placed(sys, v, 0, n, 0, HEAP_BLOCKS)
    ensures v.state.procs.Keys == {0} && v.state.kernel == {} && ElfBlocks(n) <= HEAP_BLOCKS
    ensures Window(v.state.mem.table, ElfBlocks(n), HEAP_BLOCKS) && v.state.procs[0].records == EmptyRecords()
    ensures v.state.procs[0].self == AddressOf(0) && v.tasks == [AddressOf(8 + n)]
    ensures v.state.procs[0].task == AddressOf(8 + n)
    ensures v.links == TaskList.Added(NO_LINKS, AddressOf(8 + n))
  {
    hide Window, AddressOf, TaskList.Added, EmptyRecords;
  }

  lemma InitialWindow(t: Table)
    requires |t| == HEAP_BLOCKS && Records(t, map[])
    ensures Window(t, 0, HEAP_BLOCKS)
  {
    EmptyPool(t);
    forall i | 0 <= i < HEAP_BLOCKS
      ensures IsFree(t[i])
    {
      FreeMeansUncovered(t, map[], i);
    }
  }

  /** Process 0 is as it was in `first`, and nothing that was live then has been freed. */
  ghost predicate Later(first: State, st: State) {
    && 0 in first.procs && 0 in st.procs && st.procs[0] == first.procs[0]
    && Paged(first.mem.frames, first.procs[0].dir) && Paged(st.mem.frames, st.procs[0].dir)
    && AllHeld(st.mem.frames, st.procs[0]) == AllHeld(first.mem.frames, first.procs[0])
    && forall x :: x in Pool(first.mem.table) ==>
         x in Pool(st.mem.table) && Pool(st.mem.table)[x] == Pool(first.mem.table)[x]
  }

  lemma LaterAfterLoad(first: State, sys: System, o: map<word, Owner>, slot: nat, program: Program)
    requires SystemInv(sys, o) && Later(first, sys.state) && slot !in sys.state.procs && slot < MAX_PROCESSES
    requires Sound(sys.state.mem.table) && Load(sys.state.mem, program).Some? && HeadersInside(program)
    requires 0 in Started(sys, slot, program).state.procs
    requires Started(sys, slot, program).state.procs[0] == sys.state.procs[0]
    ensures Later(first, Started(sys, slot, program).state)
  {
    hide SystemInv, Sound, Load, HeadersInside, Started, Paged, AllHeld, Pool;
    StillHolds(sys, o, slot, program, 0);
    forall x | x in Pool(first.mem.table)
      ensures var u := Started(sys, slot, program).state.mem.table;
              x in Pool(u) && Pool(u)[x] == Pool(first.mem.table)[x]
    {
      LoadOnlyAdds(sys, slot, program, x);
    }
  }

  lemma MemoryIsSound(sys: System, o: map<word, Owner>)
    requires SystemInv(sys, o)
    ensures Inv(sys.state, o) && Sound(sys.state.mem.table)
  {
    hide Proper, Pool, Paged, ProcessOk, Owns, WellFormed;
  }

  /** Loading a one-block file into the window while process 0 lives. */
  lemma LoadNext(first: State, sys: System, o: map<word, Owner>, slot: nat, a: nat, e: nat)
    returns (v: System, o': map<word, Owner>)
    requires SystemInv(sys, o) && Later(first, sys.state) && 0 < slot < MAX_PROCESSES && slot !in sys.state.procs
    requires Window(sys.state.mem.table, a, e) && a + 1036 <= e
    ensures Usable(sys) && Allowed(sys, ProcessLoad(slot, ONE_BLOCK)) && v == Next(sys, ProcessLoad(slot, ONE_BLOCK))
    ensures SystemInv(v, o') && Later(first, v.state) && Placed(sys, v, slot, 1, a, e)
  {
    hide SystemInv, Later, Window, Usable, AddressOf, Blocks, Placed, Allowed, Next;
    ProgramBlocks();
    v, o' := LoadAt(sys, o, slot, ONE_BLOCK, a, e);
    LaterAfterNext(first, sys, o, slot, v, a, e);
  }

  lemma LaterAfterNext(first: State, sys: System, o: map<word, Owner>, slot: nat, v: System, a: nat, e: nat)
    requires SystemInv(sys, o) && Later(first, sys.state) && 0 < slot && slot !in sys.state.procs
    requires Usable(sys) && Allowed(sys, ProcessLoad(slot, ONE_BLOCK)) && v == Next(sys, ProcessLoad(slot, ONE_BLOCK))
    requires Placed(sys, v, slot, 1, a, e)
    ensures Later(first, v.state)
  {
    hide SystemInv, Later, Window, AddressOf, Blocks, Clean, Listed, Started, Sound, Load, HeadersInside, Ready,
      AllPaged, TaskList.Added;
    ZeroIsLive(first, sys.state);
    LaterAfterLoad(first, sys, o, slot, ONE_BLOCK);
  }

  lemma ZeroIsLive(first: State, st: State)
    requires Later(first, st)
    ensures 0 in st.procs
  {
    hide Pool, Paged, AllHeld;
  }

  lemma LaterItself(sys: System, o: map<word, Owner>)
    requires SystemInv(sys, o) && 0 in sys.state.procs
    ensures Later(sys.state, sys.state)
  {
    hide Inv, Pool, Paged, AllHeld;
    InvPaged(sys.state, o, 0);
  }

  /** Processes 0, 1 and 3, with their tasks in blocks 13, 1049 and 2085. */
  ghost predicate ThreeProcesses(sys: System, o: map<word, Owner>) {
    && SystemInv(sys, o) && sys.state.procs.Keys == {0, 1, 3}
    && sys.state.procs[0].task == AddressOf(13) && sys.state.procs[0].self == AddressOf(0)
    && sys.state.procs[1].task == AddressOf(1049) && sys.state.procs[3].task == AddressOf(2085)
    && sys.tasks == [AddressOf(13), AddressOf(1049), AddressOf(2085)]
    && sys.links == TaskList.Added(TaskList.Added(TaskList.Added(NO_LINKS, AddressOf(13)), AddressOf(1049)),
       AddressOf(2085))
  }

  lemma LoadThree(sys: System) returns (s1: System, s2: System, s3: System, o: map<word, Owner>)
    requires Initial(sys)
    ensures Usable(sys) && Allowed(sys, ProcessLoad(0, FIVE_BLOCKS)) && s1 == Next(sys, ProcessLoad(0, FIVE_BLOCKS))
    ensures Usable(s1) && Allowed(s1, ProcessLoad(1, ONE_BLOCK)) && s2 == Next(s1, ProcessLoad(1, ONE_BLOCK))
    ensures Usable(s2) && Allowed(s2, ProcessLoad(3, ONE_BLOCK)) && s3 == Next(s2, ProcessLoad(3, ONE_BLOCK))
    ensures (exists o1 :: OneProcess(s1, o1, 1040, 13)) && Later(s1.state, s3.state) && ThreeProcesses(s3, o)
  {
    hide SystemInv, Later, Window, Usable, AddressOf, Next, Allowed, Initial, TaskList.Added;
    var o1, o2;
    ProgramBlocks();
    s1, o1 := LoadFirst(sys, FIVE_BLOCKS, 5);
    LaterItself(s1, o1);
    s2, o2 := LoadNext(s1.state, s1, o1, 1, 1040, HEAP_BLOCKS);
    s3, o := LoadNext(s1.state, s2, o2, 3, 2076, HEAP_BLOCKS);
    ZeroIsSame(s1.state, s3.state);
  }

  lemma ZeroIsSame(first: State, st: State)
    requires Later(first, st)
    ensures 0 in st.procs && 0 in first.procs && st.procs[0] == first.procs[0]
  {
    hide Pool, Paged, AllHeld;
  }

  /** What the back links of the three tasks, with addresses `a`, `b` and `c`, name. */
  lemma BackLinksOfThree(a: word, b: word, c: word)
    requires NULL !in [a, b, c] && a != b && b != c && a != c
    ensures var l := TaskList.Added(TaskList.Added(TaskList.Added(NO_LINKS, a), b), c);
            a in l.prev && l.prev[a] == NULL && b in l.prev && l.prev[b] == a
  {
  }

  lemma DifferentBlocks(b: nat, c: nat)
    requires b < HEAP_BLOCKS && c < HEAP_BLOCKS
    ensures AddressOf(b) != NULL && (AddressOf(b) == AddressOf(c) <==> b == c)
  {
  }

  lemma ThreeBackLinks(sys: System, o: map<word, Owner>)
    requires ThreeProcesses(sys, o)
    ensures AddressOf(13) in sys.links.prev && sys.links.prev[AddressOf(13)] == NULL
    ensures AddressOf(1049) in sys.links.prev && sys.links.prev[AddressOf(1049)] == AddressOf(13)
    ensures AddressOf(13) != AddressOf(1049) && NULL !in sys.tasks
    ensures Position(sys.tasks, AddressOf(13)) == 0
  {
    hide SystemInv, AddressOf;
    DifferentBlocks(13, 1049);
    DifferentBlocks(13, 2085);
    DifferentBlocks(1049, 2085);
    BackLinksOfThree(AddressOf(13), AddressOf(1049), AddressOf(2085));
  }

  /** The first process's task has no back link, so that it ends cleanly. */
  lemma FirstIsClean(sys: System, o: map<word, Owner>)
    requires ThreeProcesses(sys, o)
    ensures Usable(sys) && Clean(sys, 0)
  {
    hide SystemInv, Sound, Ready, AllPaged, Clean, AddressOf, Position;
    ThreeBackLinks(sys, o);
    InvMeansUsable(sys, o);
    NoBackLinkIsClean(sys, o, 0);
  }

  /** Processes 1 and 3 remain, and what process 0 had is the first free stretch again, but for its struct. */
  ghost predicate TwoProcesses(sys: System, o: map<word, Owner>) {
    && SystemInv(sys, o) && sys.state.procs.Keys == {1, 3} && Window(sys.state.mem.table, 3, 1040)
    && sys.state.procs[1].task == AddressOf(1049) && sys.state.procs[3].task == AddressOf(2085)
    && sys.tasks == [AddressOf(1049), AddressOf(2085)]
    && AddressOf(1049) in sys.links.prev && sys.links.prev[AddressOf(1049)] == AddressOf(13)
  }

  /** Process 0 ends. */
  lemma EndFirst(first: System, o1: map<word, Owner>, sys: System, o: map<word, Owner>)
    returns (v: System, o': map<word, Owner>)
    requires OneProcess(first, o1, 1040, 13) && ThreeProcesses(sys, o) && Later(first.state, sys.state)
    ensures Usable(sys) && Allowed(sys, ProcessTerminate(0)) && v == Next(sys, ProcessTerminate(0))
    ensures TwoProcesses(v, o')
  {
    hide SystemInv, Sound, Ready, AllPaged, Clean, AddressOf, Position, Ended, Window, Later, Listed, TaskList.Added,
      Usable;
    FirstIsClean(sys, o);
    UsableParts(sys, 0);
    v := Next(sys, ProcessTerminate(0));
    EndedKeepsSystemInv(sys, o, 0);
    o' :| SystemInv(v, o');
    EndedFirst(sys, o);
    EndedWindow(first, o1, sys, o, v, o', 1040, 13);
  }

  lemma UsableParts(sys: System, slot: nat)
    requires Usable(sys) && slot in sys.state.procs
    ensures Listed(sys, slot) && AllPaged(sys.state) && Ready(sys.state.mem.frames, sys.state.procs[slot])
    ensures Sound(sys.state.mem.table)
  {
    hide Sound, Ready, AllPaged, Listed;
  }

  lemma EndedFirst(sys: System, o: map<word, Owner>)
    requires ThreeProcesses(sys, o) && Listed(sys, 0) && Ready(sys.state.mem.frames, sys.state.procs[0])
    ensures var v := Ended(sys, 0);
            && v.state.procs.Keys == {1, 3} && v.state.procs[1] == sys.state.procs[1]
            && v.state.procs[3] == sys.state.procs[3]
            && v.tasks == [AddressOf(1049), AddressOf(2085)]
            && AddressOf(1049) in v.links.prev && v.links.prev[AddressOf(1049)] == AddressOf(13)
  {
    hide SystemInv, Ready, AddressOf, Position, Stored, TaskList.Added, TerminateStep;
    ThreeBackLinks(sys, o);
    EndedProcs(sys, 0);
  }

  lemma EndedWindow(first: System, o1: map<word, Owner>, sys: System, o: map<word, Owner>,
                    v: System, o': map<word, Owner>, a: nat, t: nat)
    requires OneProcess(first, o1, a, t) && 3 <= a && SystemInv(sys, o) && Later(first.state, sys.state)
    requires Listed(sys, 0) && Ready(sys.state.mem.frames, sys.state.procs[0]) && v == Ended(sys, 0) && SystemInv(v, o')
    ensures Window(v.state.mem.table, 3, a)
  {
    MemoryIsSound(first, o1);
    MemoryIsSound(sys, o);
    MemoryIsSound(v, o');
    hide SystemInv, Inv, Sound, Ready, AllPaged, AddressOf, Pool, Paged, AllHeld, Listed, TaskList.Added;
    OnlyProcessHolds(first.state, o1, 0);
    EndedPool(sys, o, 0);
    FirstBlocks(first, o1, a, t);
    ZeroIsSame(first.state, sys.state);
    FreedWindow(first.state.mem.table, sys.state.mem.table, v.state.mem.table, 3, a);
  }

  lemma FirstBlocks(first: System, o: map<word, Owner>, a: nat, t: nat)
    requires OneProcess(first, o, a, t)
    ensures AddressOf(0) in Pool(first.state.mem.table) && Pool(first.state.mem.table)[AddressOf(0)] == 3
    ensures |first.state.mem.table| == HEAP_BLOCKS && forall i :: 0 <= i < a ==> !IsFree(first.state.mem.table[i])
  {
    MemoryIsSound(first, o);
    hide SystemInv, Inv, AddressOf, Pool, Paged, WellFormed, TaskList.Added;
    InvSizes(first.state, o, 0);
    StructBlocks();
  }

  /** Termination in terms of the pool. */
  lemma EndedPool(sys: System, o: map<word, Owner>, slot: nat)
    requires SystemInv(sys, o) && Listed(sys, slot) && Ready(sys.state.mem.frames, sys.state.procs[slot])
    ensures Paged(sys.state.mem.frames, sys.state.procs[slot].dir)
    ensures var p := sys.state.procs[slot];
            Pool(Ended(sys, slot).state.mem.table)
              == Pool(sys.state.mem.table) - (AllHeld(sys.state.mem.frames, p) - {p.self})
  {
    MemoryIsSound(sys, o);
    hide SystemInv, Inv, Sound, Ready, Pool, Paged, AllHeld, Stored, Removed, TerminateStep, Fixtures, RecordPointers;
    TerminateKeepsInv(sys.state, o, slot);
    SelfNotElsewhere(sys.state, o, slot);
    WithoutSelf(sys.state.mem.frames, sys.state.procs[slot]);
  }

  /**
   Process 2 has joined, with its page directory in block 13, and task 1 still names that block as its
   predecessor.
   */
  ghost predicate DirectoryInReusedBlock(sys: System, o: map<word, Owner>) {
    && SystemInv(sys, o) && sys.state.procs.Keys == {1, 2, 3} && sys.state.procs[2].dir == AddressOf(13)
    && sys.state.procs[1].task == AddressOf(1049) && sys.state.procs[3].task == AddressOf(2085)
    && |sys.tasks| == 3 && sys.tasks[0] == AddressOf(1049) && sys.tasks[1] == AddressOf(2085)
    && AddressOf(1049) in sys.links.prev && sys.links.prev[AddressOf(1049)] == AddressOf(13)
  }

  lemma LoadSecond(sys: System, o: map<word, Owner>) returns (v: System, o': map<word, Owner>)
    requires TwoProcesses(sys, o)
    ensures Usable(sys) && Allowed(sys, ProcessLoad(2, ONE_BLOCK)) && v == Next(sys, ProcessLoad(2, ONE_BLOCK))
    ensures DirectoryInReusedBlock(v, o')
  {
    hide SystemInv, Window, Usable, Allowed, Next, AddressOf, Blocks, Placed;
    ProgramBlocks();
    v, o' := LoadAt(sys, o, 2, ONE_BLOCK, 3, 1040);
    PlacedSecond(sys, o, v);
  }

  lemma PlacedSecond(sys: System, o: map<word, Owner>, v: System)
    requires TwoProcesses(sys, o) && Placed(sys, v, 2, 1, 3, 1040)
    ensures v.state.procs.Keys == {1, 2, 3} && v.state.procs[2].dir == AddressOf(13)
    ensures v.state.procs[1] == sys.state.procs[1] && v.state.procs[3] == sys.state.procs[3]
    ensures |v.tasks| == 3 && v.tasks[0] == AddressOf(1049) && v.tasks[1] == AddressOf(2085)
    ensures AddressOf(1049) in v.links.prev && v.links.prev[AddressOf(1049)] == AddressOf(13)
  {
    hide SystemInv, Window, AddressOf;
    DifferentBlocks(12, 1049);
  }

  /** Slot 14 of process 2's directory holds the address of process 3's live task. */
  ghost predicate Hit(v: System) {
    && v.state.procs.Keys == {2, 3}
    && var m, d := v.state.mem.frames, v.state.procs[2].dir;
       d in m && |m[d]| == ENTRIES && TableAt(m, d, NEXT_WORD) == v.state.procs[3].task
  }

  /** Ending process 1 then writes that address. */
  lemma DirectoryHit(sys: System, o: map<word, Owner>)
    requires DirectoryInReusedBlock(sys, o)
    ensures Usable(sys) && !Clean(sys, 1) && Hit(Ended(sys, 1))
  {
    hide SystemInv, Sound, Ready, AllPaged, Clean, AddressOf, Ended, Listed, Hit;
    InvMeansUsable(sys, o);
    UsableParts(sys, 1);
    DirectoryWritten(sys, o);
    DirectoryNotSpared(sys, o);
  }

  lemma FieldsOfFirst(sys: System, o: map<word, Owner>)
    requires DirectoryInReusedBlock(sys, o)
    ensures AddressOf(1049) in sys.links.next && sys.links.next[AddressOf(1049)] == AddressOf(2085)
    ensures AddressOf(13) != NULL && Aligned(AddressOf(2085))
  {
    hide Inv, TaskStructs, Proper;
    ProperLinks(sys.links, sys.tasks, 0);
  }

  lemma ProcessesLeft(sys: System, o: map<word, Owner>)
    requires DirectoryInReusedBlock(sys, o) && Listed(sys, 1) && Ready(sys.state.mem.frames, sys.state.procs[1])
    ensures Ended(sys, 1).state.procs == sys.state.procs - {1} && (sys.state.procs - {1}).Keys == {2, 3}
  {
    hide SystemInv, Inv, Sound, Ready, AddressOf, Ended, Listed;
    MemoryIsSound(sys, o);
    DirectoryOwned(sys.state, o, 2);
    TaskIsListed(sys, 1);
    ProcessesKept(sys, o, 1);
  }

  lemma DirectoryOwned(st: State, o: map<word, Owner>, s: nat)
    requires Inv(st, o) && s in st.procs
    ensures st.procs[s].dir in o && o[st.procs[s].dir] == Of(s, SpaceKind)
  {
    hide Inv, Paged;
    InvOwnsFixtures(st, o, s);
  }

  lemma TaskIsListed(sys: System, slot: nat)
    requires Listed(sys, slot)
    ensures slot in sys.state.procs && sys.state.procs[slot].task in sys.links.prev
    ensures sys.state.procs[slot].task in sys.links.next
  {
  }

  /** A back link that names a live block other than a process struct does no harm to records. */
  lemma ProcessesKept(sys: System, o: map<word, Owner>, slot: nat)
    requires Inv(sys.state, o) && Listed(sys, slot) && Ready(sys.state.mem.frames, sys.state.procs[slot])
    requires sys.links.prev[sys.state.procs[slot].task] in o && o[sys.links.prev[sys.state.procs[slot].task]].Of?
    requires o[sys.links.prev[sys.state.procs[slot].task]].kind != StructKind
    ensures Ended(sys, slot).state.procs == sys.state.procs - {slot}
  {
    hide Inv, Ready, Ended, Overwritten, RecordHit;
    var t := sys.state.procs[slot].task;
    EndedProcs(sys, slot);
    forall s | s in sys.state.procs
      ensures Overwritten(sys.state.procs[s], sys.links.prev[t], sys.links.next[t]) == sys.state.procs[s]
    {
      OutsideStructs(sys.state, o, sys.links.prev[t], s);
      NotOverwritten(sys.state.procs[s], sys.links.prev[t], sys.links.next[t]);
    }
  }

  lemma NotOverwritten(p: Process, block: word, value: word)
    requires RecordHit(p.self, block) == -1
    ensures Overwritten(p, block, value) == p
  {
  }

  lemma DirectoryWritten(sys: System, o: map<word, Owner>)
    requires DirectoryInReusedBlock(sys, o) && Listed(sys, 1) && Ready(sys.state.mem.frames, sys.state.procs[1])
    ensures Hit(Ended(sys, 1))
  {
    hide SystemInv, Ready, AddressOf, Ended, TableAt, Listed, InHeap;
    FieldsOfFirst(sys, o);
    MemoryIsSound(sys, o);
    ProcessesLeft(sys, o);
    WriteThrough(sys, o, 1, 2);
  }

  /** With another process's directory as its predecessor, a task leaves its successor there. */
  lemma WriteThrough(sys: System, o: map<word, Owner>, slot: nat, s: nat)
    requires Inv(sys.state, o) && Listed(sys, slot) && Ready(sys.state.mem.frames, sys.state.procs[slot])
    requires s in sys.state.procs && s != slot && sys.state.procs[s].dir != NULL
    requires sys.links.prev[sys.state.procs[slot].task] == sys.state.procs[s].dir
    requires Aligned(sys.links.next[sys.state.procs[slot].task])
    ensures var m, d := Ended(sys, slot).state.mem.frames, sys.state.procs[s].dir;
            d in m && |m[d]| == ENTRIES && TableAt(m, d, NEXT_WORD) == sys.links.next[sys.state.procs[slot].task]
  {
    hide Inv, Ready, Stored, TerminateStep, Removed, TableAt, Paged;
    StillADirectory(sys.state, o, slot, s);
    StoredInDirectory(TerminateStep(sys.state, slot).mem.frames, sys.state.procs[s].dir,
      sys.links.next[sys.state.procs[slot].task]);
  }

  lemma StillADirectory(st: State, o: map<word, Owner>, slot: nat, s: nat)
    requires Inv(st, o) && slot in st.procs && s in st.procs && s != slot && Ready(st.mem.frames, st.procs[slot])
    ensures Paged(TerminateStep(st, slot).mem.frames, st.procs[s].dir)
  {
    hide Inv, Ready, TerminateStep, Paged, Agree, Footprint;
    TerminateKeepsOthers(st, o, slot, s);
    SpaceUnchanged(st.mem.frames, TerminateStep(st, slot).mem.frames, st.procs[s].dir);
  }

  /** The directory did not have that entry before. */
  lemma DirectoryNotSpared(sys: System, o: map<word, Owner>)
    requires DirectoryInReusedBlock(sys, o) && Listed(sys, 1) && AllPaged(sys.state)
    ensures !Clean(sys, 1)
  {
    FieldsOfFirst(sys, o);
    MemoryIsSound(sys, o);
    hide SystemInv, Inv, AddressOf, AllPaged, Paged, Removable, Position, WriteMisses;
    TableOfTask(sys.state, o, 2, 3);
  }

  /** A page directory never has a live task for a table, so that writing one there is no miss. */
  lemma TableOfTask(st: State, o: map<word, Owner>, s: nat, r: nat)
    requires Inv(st, o) && s in st.procs && r in st.procs && Aligned(st.procs[r].task)
    ensures Paged(st.mem.frames, st.procs[s].dir)
    ensures !WriteMisses(st.mem.frames, st.procs[s], st.procs[s].dir, st.procs[r].task)
  {
    hide Inv, Paged, Footprint;
    InvPaged(st, o, s);
    EntryIsTable(st.mem.frames, st.procs[s].dir, NEXT_WORD);
    LoadedTaskOwner(st, o, r);
    TaskIsNoTable(st, o, st.procs[r].task, r, s);
    AlignedMask(st.procs[r].task);
  }

  lemma EntryIsTable(m: Frames, d: word, i: nat)
    requires Paged(m, d) && i < ENTRIES
    ensures d in Footprint(m, d) && d in m && |m[d]| == ENTRIES && Mask(m[d][i]) in Footprint(m, d)
  {
    assert TableAt(m, d, i) in TablesFrom(m, d, 0);
  }

  lemma AlignedMask(a: word)
    requires Aligned(a)
    ensures Mask(a) == a
  {
  }

  /** One step more of a run. */
  lemma RunOn(sys: System, steps: seq<Step>, v: System, step: Step)
    requires Run(sys, steps) == Some(v) && Usable(v) && Allowed(v, step)
    ensures Run(sys, steps + [step]) == Some(Next(v, step))
    decreases |steps|
  {
    hide Usable, Allowed, Next;
    if steps == [] {
      assert ([] + [step])[1..] == [];
      assert Run(Next(sys, step), []) == Some(Next(sys, step));
    } else {
      assert (steps + [step])[1..] == steps[1..] + [step];
      RunOn(Next(sys, steps[0]), steps[1..], v, step);
    }
  }

  /** Four loads and a termination, each allowed. */
  const STEPS: seq<Step> := [ProcessLoad(0, FIVE_BLOCKS), ProcessLoad(1, ONE_BLOCK), ProcessLoad(3, ONE_BLOCK),
                             ProcessTerminate(0), ProcessLoad(2, ONE_BLOCK)]

  lemma StepsAreARun(sys: System) returns (v: System, o: map<word, Owner>)
    requires Initial(sys)
    ensures Run(sys, STEPS) == Some(v) && DirectoryInReusedBlock(v, o)
  {
    hide Usable, Allowed, Next, Initial, OneProcess, ThreeProcesses, TwoProcesses, DirectoryInReusedBlock, Later;
    var s1, s2, s3, o3 := LoadThree(sys);
    var o1 :| OneProcess(s1, o1, 1040, 13);
    var s4, o4 := EndFirst(s1, o1, s3, o3);
    v, o := LoadSecond(s4, o4);
    assert Run(sys, []) == Some(sys) && STEPS[..0] == [];
    RunOn(sys, STEPS[..0], sys, STEPS[0]);
    assert STEPS[..0] + [STEPS[0]] == STEPS[..1];
    RunOn(sys, STEPS[..1], s1, STEPS[1]);
    assert STEPS[..1] + [STEPS[1]] == STEPS[..2];
    RunOn(sys, STEPS[..2], s2, STEPS[2]);
    assert STEPS[..2] + [STEPS[2]] == STEPS[..3];
    RunOn(sys, STEPS[..3], s3, STEPS[3]);
    assert STEPS[..3] + [STEPS[3]] == STEPS[..4];
    RunOn(sys, STEPS[..4], s4, STEPS[4]);
    assert STEPS[..4] + [STEPS[4]] == STEPS;
  }

  /**
   After this run, starting from a new kernel, process 1 must not be terminated: the code would write the
   address of process 3's live task struct into the page directory of process 2, where the processor and
   paging_free_4gb take it for a page table.
   */
  lemma StaleLinkExample(sys: System)
    requires Initial(sys)
    ensures Run(sys, STEPS).Some?
    ensures var u := Run(sys, STEPS).value;
            Usable(u) && u.state.procs.Keys == {1, 2, 3} && !Clean(u, 1) && Hit(Ended(u, 1))
  {
    hide Run, Initial, SystemInv, Usable, Clean, Ended, AddressOf, Hit;
    var u, o := StepsAreARun(sys);
    DirectoryHit(u, o);
  }
}
