/** Loading succeeds when there is room: the whole-run theorems are about runs that exist. */
module Progress {
  import opened Wrappers
  import opened Words
  import opened HeapTable
  import opened Heap
  import opened KernelHeap
  import opened PageTables
  import opened AddressSpace
  import opened ProcessMemory
  import opened KernelRun
  import opened KernelSystem
  import opened TaskList
  import opened Isolation

  /** Every block from `s` on is free. */
  ghost predicate TailFree(t: Table, s: nat) {
    s <= |t| && forall i :: s <= i < |t| ==> IsFree(t[i])
  }

  /** Room at the end of the table is enough for a request, and uses no more of it than asked for. */
  lemma AllocateFromTail(t: Table, s: nat, n: nat)
    requires Sound(t) && TailFree(t, s) && n >= 1 && s + n <= |t|
    ensures Allocate(t, n).Some? && TailFree(Allocate(t, n).value.0, s + n)
  {
    assert AllFree(t, s, n);
    TailScan(t, s, n);
    hide Sound, Pool;
    AddressOfBlock(FirstFit(t, n));
  }

  lemma TailScan(t: Table, s: nat, n: nat)
    requires n >= 1 && AllFree(t, s, n)
    ensures 0 <= FirstFit(t, n) <= s && !Overruns(t, n) && AllFree(t, FirstFit(t, n), n)
  {
    FirstFitIsExact(t, n);
    hide FirstFit;
  }

  lemma {:induction false} TailCount(t: Table, s: nat)
    requires TailFree(t, s)
    ensures FreeCount(t) >= |t| - s
    decreases |t|
  {
    if t != [] {
      TailCount(t[1..], if s == 0 then 0 else s - 1);
    }
  }

  lemma {:induction false} FreeFromKeepsFree(t: Table, k: nat, i: nat)
    requires i < |t| && IsFree(t[i])
    ensures IsFree(FreeFrom(t, k)[i])
    decreases |t| - k
  {
    if k < |t| && HasNext(t[k]) {
      FreeFromKeepsFree(t[k := FREE], k + 1, i);
    }
  }

  lemma TailAfterFree(t: Table, s: nat, p: word)
    requires Sound(t) && TailFree(t, s) && p in Pool(t)
    ensures AddressToBlock(HEAP_ADDRESS, p) >= 0 && TailFree(Kfree(t, p), s)
  {
    hide Sound, Pool;
    KfreeRemoves(t, p);
    forall i | s <= i < |t|
      ensures IsFree(Kfree(t, p)[i])
    {
      FreeFromKeepsFree(t, AddressToBlock(HEAP_ADDRESS, p), i);
    }
  }

  // ---------- the file system's calls ----------

  /** Requests are for something, and only what was taken is given back; `n` blocks are there at the start. */
  predicate Sensible(cs: seq<Call>, n: nat) {
    cs == [] ||
    match cs[0]
    case Take(size) => Blocks(size) >= 1 && Sensible(cs[1..], n + 1)
    case GiveBack(k) => k < n && Sensible(cs[1..], n - 1)
  }

  /** The blocks that are there at the end. */
  function Left(cs: seq<Call>, n: nat): (m: nat)
    requires Sensible(cs, n)
  {
    if cs == [] then n
    else
      match cs[0]
      case Take(_) => Left(cs[1..], n + 1)
      case GiveBack(_) => Left(cs[1..], n - 1)
  }

  function CallBlocks(cs: seq<Call>): (n: nat) {
    if cs == [] then 0
    else
      match cs[0]
      case Take(size) => Blocks(size) + CallBlocks(cs[1..])
      case GiveBack(_) => CallBlocks(cs[1..])
  }

  predicate SensibleCalls(calls: Calls) {
    && Sensible(calls.opening, 0) && Sensible(calls.closing, Left(calls.opening, 0))
    && Sensible(calls.again, Left(calls.closing, Left(calls.opening, 0)))
  }

  lemma {:induction false} CalledFromTail(t: Table, s: nat, cs: seq<Call>, own: seq<word>, rest: map<word, nat>)
    requires Sound(t) && TailFree(t, s) && OwnAside(Pool(t), own, rest)
    requires Sensible(cs, |own|) && s + CallBlocks(cs) <= HEAP_BLOCKS
    ensures Called(t, cs, own).Some?
    ensures var (u, own') := Called(t, cs, own).value;
            TailFree(u, s + CallBlocks(cs)) && OwnAside(Pool(u), own', rest) && |own'| == Left(cs, |own|)
    decreases |cs|
  {
    hide Sound, Pool, Allocate, Kfree, OwnAside, Blocks, AddressToBlock, TailFree;
    SoundLength(t);
    if cs != [] {
      match cs[0]
      case Take(size) =>
        AllocateFromTail(t, s, Blocks(size));
        var (u, p) := Allocate(t, Blocks(size)).value;
        TakeAside(Pool(t), own, rest, p, Blocks(size));
        CalledFromTail(u, s + Blocks(size), cs[1..], own + [p], rest);
      case GiveBack(k) =>
        OwnIsLive(Pool(t), own, rest, k);
        TailAfterFree(t, s, own[k]);
        KfreeRemoves(t, own[k]);
        GiveBackAside(Pool(t), own, rest, k);
        CalledFromTail(Kfree(t, own[k]), s, cs[1..], Less(own, k), rest);
    }
  }

  lemma OwnIsLive(pool: map<word, nat>, own: seq<word>, rest: map<word, nat>, k: nat)
    requires OwnAside(pool, own, rest) && k < |own|
    ensures own[k] in pool
  {
  }

  // ---------- loading ----------

  /** Blocks that reading a program file may take. */
  function FileBlocks(program: Program): nat {
    Blocks(ELF_STRUCT) + 2 * Blocks(program.size)
    + CallBlocks(program.calls.opening) + CallBlocks(program.calls.closing) + CallBlocks(program.calls.again)
  }

  /** Blocks that loading a program may take. */
  function LoadBlocks(program: Program): nat {
    Blocks(PROCESS_STRUCT) + FileBlocks(program) + Blocks(STACK_SIZE) + Blocks(TASK_STRUCT) + SPACE_BLOCKS
  }

  lemma TailShrinks(t: Table, s: nat, e: nat)
    requires TailFree(t, s) && s <= e <= |t|
    ensures TailFree(t, e)
  {
  }

  lemma LoadProgramFromTail(t: Table, s: nat, program: Program)
    requires Sound(t) && TailFree(t, s) && Blocks(program.size) >= 1 && SensibleCalls(program.calls)
    requires s + FileBlocks(program) <= HEAP_BLOCKS
    ensures LoadProgram(t, program).Some?
    ensures TailFree(LoadProgram(t, program).value.table, s + FileBlocks(program))
  {
    hide Sound, Pool, Overruns, FirstFit, Allocate, Called, OwnAside, Blocks, TailFree, Members;
    ReachFromTail(t, s, program);
    var e, n, c := Blocks(ELF_STRUCT), Blocks(program.size), program.calls;
    var t1 := Allocate(t, e).value.0;
    var (t2, first) := Called(t1, c.opening, []).value;
    var (t3, memory) := Allocate(t2, n).value;
    var (t4, closed) := Called(t3, c.closing, first).value;
    var s4 := s + e + CallBlocks(c.opening) + n + CallBlocks(c.closing);
    SoundLength(t4);
    var rest := Pool(t1)[memory := n];
    if program.Binary? {
      AllocateFromTail(t4, s4, n);
      var (t5, ptr) := Allocate(t4, n).value;
      AllocateAside(Pool(t4), closed, rest, ptr, n);
      CalledFromTail(t5, s4 + n, c.again, closed, rest[ptr := n]);
    } else {
      TailShrinks(t4, s4, s + FileBlocks(program));
    }
  }

  /** The part that both kinds of file go through. */
  lemma ReachFromTail(t: Table, s: nat, program: Program)
    requires Sound(t) && TailFree(t, s) && Blocks(program.size) >= 1 && SensibleCalls(program.calls)
    requires s + FileBlocks(program) <= HEAP_BLOCKS
    ensures var e, n, c := Blocks(ELF_STRUCT), Blocks(program.size), program.calls;
            Allocate(t, e).Some? &&
            var t1 := Allocate(t, e).value.0;
            Called(t1, c.opening, []).Some? &&
            var (t2, first) := Called(t1, c.opening, []).value;
            Allocate(t2, n).Some? &&
            var (t3, memory) := Allocate(t2, n).value;
            Called(t3, c.closing, first).Some? &&
            var (t4, closed) := Called(t3, c.closing, first).value;
            && TailFree(t4, s + e + CallBlocks(c.opening) + n + CallBlocks(c.closing))
            && OwnAside(Pool(t4), closed, Pool(t1)[memory := n])
            && |closed| == Left(c.closing, Left(c.opening, 0))
  {
    hide Sound, Pool, Overruns, FirstFit, Allocate, Called, OwnAside, Blocks, TailFree;
    var e, n, c := Blocks(ELF_STRUCT), Blocks(program.size), program.calls;
    StructBlocks();
    SoundLength(t);
    AllocateFromTail(t, s, e);
    var t1 := Allocate(t, e).value.0;
    NothingAside(Pool(t1));
    CalledFromTail(t1, s + e, c.opening, [], Pool(t1));
    var (t2, first) := Called(t1, c.opening, []).value;
    SoundLength(t2);
    AllocateFromTail(t2, s + e + CallBlocks(c.opening), n);
    var (t3, memory) := Allocate(t2, n).value;
    AllocateAside(Pool(t2), first, Pool(t1), memory, n);
    CalledFromTail(t3, s + e + CallBlocks(c.opening) + n, c.closing, first, Pool(t1)[memory := n]);
  }

  lemma SoundLength(t: Table)
    requires Sound(t)
    ensures |t| == HEAP_BLOCKS
  {
    hide WellFormed;
  }

  lemma AllocateProcessFromTail(mem: Memory, s: nat, program: Program)
    requires Sound(mem.table) && TailFree(mem.table, s) && Blocks(program.size) >= 1 && SensibleCalls(program.calls)
    requires s + LoadBlocks(program) <= HEAP_BLOCKS
    ensures AllocateProcess(mem, program).Some?
  {
    hide Sound, Pool, Overruns, FirstFit, Allocate, LoadProgram, NewSpace, FreeCount, TailFree, SensibleCalls,
      FileBlocks;
    SoundLength(mem.table);
    AllocateFromTail(mem.table, s, Blocks(PROCESS_STRUCT));
    var t1 := Allocate(mem.table, Blocks(PROCESS_STRUCT)).value.0;
    var s1 := s + Blocks(PROCESS_STRUCT);
    LoadProgramFromTail(t1, s1, program);
    var t2 := LoadProgram(t1, program).value.table;
    var s2 := s1 + FileBlocks(program);
    SoundLength(t2);
    AllocateFromTail(t2, s2, Blocks(STACK_SIZE));
    var t3 := Allocate(t2, Blocks(STACK_SIZE)).value.0;
    SoundLength(t3);
    AllocateFromTail(t3, s2 + Blocks(STACK_SIZE), Blocks(TASK_STRUCT));
    var t4 := Allocate(t3, Blocks(TASK_STRUCT)).value.0;
    SoundLength(t4);
    TailCount(t4, s2 + Blocks(STACK_SIZE) + Blocks(TASK_STRUCT));
  }

  lemma {:induction false} HeadersMap(m: Frames, d: word, memory: word, n: nat, hs: seq<Header>)
    requires Paged(m, d) && InHeap(memory) && memory + n * BLOCK_SIZE <= HEAP_ADDRESS + HEAP_BLOCKS * BLOCK_SIZE
    requires forall h :: h in hs ==> 0 <= h.offset && h.offset + h.memsz <= n * BLOCK_SIZE
    ensures MapHeaders(m, d, memory, hs).1 == 0
    decreases |hs|
  {
    hide Paged, MapTo, SpaceOf;
    if hs != [] {
      var h := hs[0];
      var phys := Wrap(memory + h.offset);
      var flags := if h.writable then USER_WRITE_FLAGS else USER_FLAGS;
      HeaderEnds(memory, n, h);
      MapToIsPointwise(m, d, Mask(h.vaddr), Mask(phys), AlignAddress(Wrap(phys + h.memsz)), flags, 0);
      HeadersMap(MapTo(m, d, Mask(h.vaddr), Mask(phys), AlignAddress(Wrap(phys + h.memsz)), flags).0, d, memory, n,
        hs[1..]);
    }
  }

  lemma HeaderEnds(memory: word, n: nat, h: Header)
    requires InHeap(memory) && memory + n * BLOCK_SIZE <= HEAP_ADDRESS + HEAP_BLOCKS * BLOCK_SIZE
    requires 0 <= h.offset && h.offset + h.memsz <= n * BLOCK_SIZE
    ensures var phys := Wrap(memory + h.offset);
            Mappable(Mask(h.vaddr), Mask(phys), AlignAddress(Wrap(phys + h.memsz)))
  {
  }

  /** A load succeeds whenever the end of the heap has enough free blocks. */
  lemma LoadSucceeds(mem: Memory, s: nat, program: Program)
    requires Sound(mem.table) && TailFree(mem.table, s) && program.size >= 1 && HeadersInside(program)
    requires SensibleCalls(program.calls)
    requires s + LoadBlocks(program) <= HEAP_BLOCKS
    ensures Load(mem, program).Some?
  {
    hide Sound, Pool, AllocateProcess, MapHeaders, MapBinary, MapStack, Paged, FreshProcess, FreshSpace, InHeap,
      LoadBlocks, TailFree, SensibleCalls;
    BlocksCover(program.size);
    AllocateProcessFromTail(mem, s, program);
    AllocateProcessIsFresh(mem, program);
    var a := AllocateProcess(mem, program).value;
    var p := a.process;
    ImageIsInPool(Pool(mem.table), a.mem.table, a.mem.frames, p, a.leaked);
    if p.image.ElfImage? {
      HeadersMap(a.mem.frames, p.dir, p.image.memory, Blocks(program.size), HeadersOf(program));
    }
  }

  /** In the initial state, any program that fits in the heap can be loaded into any slot. */
  lemma FirstLoadAllowed(sys: System, slot: nat, program: Program)
    requires Initial(sys) && slot < MAX_PROCESSES && program.size >= 1 && HeadersInside(program)
    requires SensibleCalls(program.calls) && LoadBlocks(program) <= HEAP_BLOCKS
    ensures Run(sys, [ProcessLoad(slot, program)]).Some?
    ensures slot in Run(sys, [ProcessLoad(slot, program)]).value.state.procs
  {
    hide Inv, Proper, TaskStructs, Usable, Load, LoadBlocks, HeadersInside, Sound, Stored, SensibleCalls;
    InitialInv(sys);
    InvMeansUsable(sys, map[]);
    InitialTail(sys.state);
    InvSound(sys.state, map[]);
    LoadSucceeds(sys.state.mem, 0, program);
    assert [ProcessLoad(slot, program)][1..] == [];
    assert Run(Next(sys, ProcessLoad(slot, program)), []) == Some(Next(sys, ProcessLoad(slot, program)));
  }

  lemma InitialTail(st: State)
    requires |st.mem.table| == HEAP_BLOCKS && Records(st.mem.table, map[])
    ensures TailFree(st.mem.table, 0)
  {
    forall i | 0 <= i < |st.mem.table|
      ensures IsFree(st.mem.table[i])
    {
      FreeMeansUncovered(st.mem.table, map[], i);
    }
  }
}
