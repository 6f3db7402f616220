/** Why the run theorems leave some steps out: each of these takes the kernel out of what they promise. */
module Limits {
  import opened Words
  import opened HeapTable
  import opened Heap
  import opened KernelHeap
  import opened PageTables
  import opened AddressSpace
  import opened ProcessMemory
  import opened ProcessPages
  import opened KernelRun
  import opened KernelSystem
  import opened TaskList
  import opened Isolation
  import opened Layout
  import opened StaleLink

  // ---------- requests for nothing ----------

  /**
   A request of size 0 gets the address of the first free block, here not block 0, and takes nothing: the
   address is not live, and the next request for one block gets the same. A record of it would not be valid.
   (With block 0 free the marking loop's unsigned comparison would not even stop.)
   */
  lemma ZeroSizeExample(t: Table, a: nat, r: seq<Allocation>, k: nat)
    requires Window(t, a, HEAP_BLOCKS) && 0 < a < HEAP_BLOCKS && k < |r| && RecordsValid(Pool(t), r)
    ensures Blocks(0) == 0 && |t| == HEAP_BLOCKS && FirstFit(t, 0) == a && MarkTaken(t, a, 0) == t
    ensures AddressOf(a) !in Pool(t) && !Overruns(t, 1) && KmallocAddress(t, 1) == AddressOf(a)
    ensures !RecordsValid(Pool(t), r[k := Allocation(AddressOf(a), 0)])
  {
    NothingAsked(t, a);
    TakeFromWindow(t, a, HEAP_BLOCKS, 1);
    hide FirstFit, KmallocAddress, Overruns;
    FreeIsNotLive(t, a);
    assert r[k := Allocation(AddressOf(a), 0)][k].ptr == AddressOf(a);
  }

  lemma NothingAsked(t: Table, a: nat)
    requires Window(t, a, HEAP_BLOCKS) && a < HEAP_BLOCKS
    ensures Blocks(0) == 0 && |t| == HEAP_BLOCKS && FirstFit(t, 0) == a && MarkTaken(t, a, 0) == t
  {
    hide FirstFit, WellFormed;
    FirstFitIsExact(t, 0);
    assert IsFree(t[|t| - 1]);
    var r := FirstFit(t, 0);
    RunStart(t, a, r);
  }

  lemma RunStart(t: Table, a: nat, r: int)
    requires a < |t| && (forall i :: 0 <= i < a ==> !IsFree(t[i])) && (forall i :: a <= i < |t| ==> IsFree(t[i]))
    requires TrailingRun(t, r)
    ensures r == a
  {
    assert 0 <= r < |t| && IsFree(t[r]);
  }

  lemma FreeIsNotLive(t: Table, a: nat)
    requires Window(t, a, HEAP_BLOCKS) && a < HEAP_BLOCKS
    ensures AddressOf(a) !in Pool(t)
  {
    hide Decode;
    TakenExactlyWhen(t, a);
    PoolOfBlock(t, a);
    if AddressOf(a) in Pool(t) {
      OwnFirstBlock(t, a);
    }
  }

  lemma OwnFirstBlock(t: Table, s: nat)
    requires Sound(t) && s in Decode(t)
    ensures BlockOfAllocation(t, s, s)
  {
    hide Decode;
  }

  // ---------- a program header outside the file ----------

  /** One writeable segment, which starts a page before the file's copy in memory. */
  const BEFORE_THE_FILE := Header(-4096, PROGRAM_ADDRESS, 4096, true)
  const OUTSIDE := Elf(4096, [BEFORE_THE_FILE], NO_CALLS)
  const PROGRAM_PAGE := 0x400

  lemma ProgramPage()
    ensures PROGRAM_ADDRESS / PAGE_SIZE == PROGRAM_PAGE && Mask(PROGRAM_ADDRESS) == PROGRAM_ADDRESS && Blocks(4096) == 1
    ensures Mappable(PROGRAM_ADDRESS, AddressOf(3), AddressOf(4))
  {
  }

  /** Mapping such a segment makes the page in front of the file's copy writeable. */
  lemma SegmentBefore(m: Frames, d: word)
    requires Paged(m, d)
    ensures MapHeaders(m, d, AddressOf(4), [BEFORE_THE_FILE]).1 == 0
    ensures SpaceOf(MapHeaders(m, d, AddressOf(4), [BEFORE_THE_FILE]).0, d)[PROGRAM_PAGE]
            == AddressOf(3) + USER_WRITE_FLAGS
  {
    ProgramPage();
    assert Wrap(AddressOf(4) - 4096) == AddressOf(3) && AlignAddress(Wrap(AddressOf(3) + 4096)) == AddressOf(4);
    assert Mask(AddressOf(3)) == AddressOf(3);
    var n := MapTo(m, d, PROGRAM_ADDRESS, AddressOf(3), AddressOf(4), USER_WRITE_FLAGS).0;
    MapToIsPointwise(m, d, PROGRAM_ADDRESS, AddressOf(3), AddressOf(4), USER_WRITE_FLAGS, PROGRAM_PAGE);
    hide MapTo, SpaceOf, Paged, AddressOf;
    assert [BEFORE_THE_FILE][1..] == [];
    assert MapHeaders(n, d, AddressOf(4), []) == (n, 0);
  }

  /** The stack is mapped elsewhere. */
  lemma StackElsewhere(m: Frames, d: word, stack: word)
    requires Paged(m, d) && InHeap(stack) && stack + STACK_SIZE <= HEAP_ADDRESS + HEAP_BLOCKS * BLOCK_SIZE
    ensures SpaceOf(MapStack(m, d, stack), d)[PROGRAM_PAGE] == SpaceOf(m, d)[PROGRAM_PAGE]
  {
    assert AlignAddress(Wrap(stack + STACK_SIZE)) == stack + STACK_SIZE;
    MapToIsPointwise(m, d, STACK_END, stack, stack + STACK_SIZE, USER_WRITE_FLAGS, PROGRAM_PAGE);
    hide MapTo, SpaceOf, Paged;
  }

  /** What loading the file into an empty heap gives. */
  lemma LoadedOutside(mem: Memory)
    requires Window(mem.table, 0, HEAP_BLOCKS)
    ensures Sound(mem.table) && Load(mem, OUTSIDE).Some?
    ensures var l := Load(mem, OUTSIDE).value;
            && Sound(l.mem.table) && Paged(l.mem.frames, l.process.dir)
            && l.process.image == ElfImage(AddressOf(3), AddressOf(4), 4096)
            && AddressOf(3) in Pool(l.mem.table) && Pool(l.mem.table)[AddressOf(3)] == 1
            && SpaceOf(l.mem.frames, l.process.dir)[PROGRAM_PAGE] == AddressOf(3) + USER_WRITE_FLAGS
            && Writable(l.mem.frames[l.process.dir][PROGRAM_PAGE / ENTRIES])
  {
    ProgramPage();
    ProcessFromWindow(mem, OUTSIDE, 0, HEAP_BLOCKS);
    var a := AllocateProcess(mem, OUTSIDE).value;
    hide Window, Sound, Pool, AllocateProcess, Paged, SpaceOf, FreshSpace, MapHeaders, MapStack, AddressOf, InHeap,
      Blocks, Writable;
    AllocateProcessIsFresh(mem, OUTSIDE);
    FreshSizes(Pool(mem.table), a);
    DirectoryEntryWritable(Pool(mem.table).Keys, mem.frames, a.mem.frames, a.process.dir, a.process.chunk,
      PROGRAM_PAGE / ENTRIES);
    SegmentBefore(a.mem.frames, a.process.dir);
    var n := MapHeaders(a.mem.frames, a.process.dir, AddressOf(4), [BEFORE_THE_FILE]).0;
    StackElsewhere(n, a.process.dir, a.process.stack);
  }

  lemma FreshSizes(pool: map<word, nat>, a: Loaded)
    requires Sound(a.mem.table) && Paged(a.mem.frames, a.process.dir) && a.process.image.ElfImage?
    requires FreshProcess(pool, Pool(a.mem.table), a.mem.frames, a.process, a.leaked)
    ensures var u := Pool(a.mem.table);
            && a.process.image.file in u && u[a.process.image.file] == 1
            && InHeap(a.process.stack) && a.process.stack + STACK_SIZE <= HEAP_ADDRESS + HEAP_BLOCKS * BLOCK_SIZE
  {
    hide Sound, Pool, Paged, SpaceBlocks, Footprint, Held, InHeap;
    StructBlocks();
    hide Blocks;
    SpansAreInHeap(a.mem.table, a.process.stack);
  }

  /**
   Loading an ELF file with a writeable segment outside the file lets the process write the kernel's own
   elf_file struct, and isolation fails.
   */
  lemma HeaderOutsideExample(sys: System)
    requires Initial(sys)
    ensures Sound(sys.state.mem.table) && Load(sys.state.mem, OUTSIDE).Some? && !HeadersInside(OUTSIDE)
    ensures AllPaged(Started(sys, 0, OUTSIDE).state) && !Isolated(Started(sys, 0, OUTSIDE).state)
  {
    hide Window, Sound, Pool, Load, Paged, SpaceOf, AddressOf, Records, Isolated, Writable;
    InitialWindow(sys.state.mem.table);
    LoadedOutside(sys.state.mem);
    assert BEFORE_THE_FILE in HeadersOf(OUTSIDE);
    StartedAlone(sys);
    FileIsWritable(Started(sys, 0, OUTSIDE).state);
  }

  lemma StartedAlone(sys: System)
    requires Sound(sys.state.mem.table) && Load(sys.state.mem, OUTSIDE).Some? && sys.state.procs == map[]
    requires sys.links == NO_LINKS
    ensures var l, v := Load(sys.state.mem, OUTSIDE).value, Started(sys, 0, OUTSIDE);
            v.state.mem == l.mem && v.state.procs == map[0 := l.process]
  {
    hide Sound, Load, Stored, TaskList.Added;
  }

  lemma FileIsWritable(st: State)
    requires AllPaged(st) && st.procs.Keys == {0}
    requires var p := st.procs[0];
             && p.image == ElfImage(AddressOf(3), AddressOf(4), 4096)
             && AddressOf(3) in Pool(st.mem.table) && Pool(st.mem.table)[AddressOf(3)] == 1
             && SpaceOf(st.mem.frames, p.dir)[PROGRAM_PAGE] == AddressOf(3) + USER_WRITE_FLAGS
             && Writable(st.mem.frames[p.dir][PROGRAM_PAGE / ENTRIES])
    ensures !Isolated(st)
  {
    hide Paged, SpaceOf, Pool, InOwnBlock;
    var m, p := st.mem.frames, st.procs[0];
    MaskDropsFlags(AddressOf(3), USER_WRITE_FLAGS);
    assert Writable(AddressOf(3) + USER_WRITE_FLAGS);
    assert UserWritable(m, p.dir, PROGRAM_PAGE) && FrameOf(m, p.dir, PROGRAM_PAGE) == AddressOf(3);
    assert AddressOf(3) in HeldBy(st, Of(0, ElfKind));
    assert Protected(st, AddressOf(3));
    assert Spans(Pool(st.mem.table), AddressOf(3), AddressOf(3));
  }
}
