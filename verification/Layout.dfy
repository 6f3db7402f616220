/** Where the first-fit scan puts a process whose blocks all fit into the first free stretch of the heap. */
module Layout {
  import opened Wrappers
  import opened Words
  import opened HeapTable
  import opened Heap
  import opened KernelHeap
  import opened PageTables
  import opened AddressSpace
  import opened ProcessMemory
  import opened ProcessPages

  /** The first free blocks of the heap are those from `a` on, up to `e` at least. */
  ghost predicate Window(t: Table, a: nat, e: nat) {
    && Sound(t) && a <= e <= |t|
    && (forall i :: 0 <= i < a ==> !IsFree(t[i]))
    && (forall i :: a <= i < e ==> IsFree(t[i]))
  }

  function AddressOf(block: nat): (p: word)
    requires block < HEAP_BLOCKS
    ensures InHeap(p) && BlockOf(p) == block
  {
    HEAP_ADDRESS + block * BLOCK_SIZE
  }

  lemma ScanWindow(t: Table, a: nat, e: nat, n: nat)
    requires Window(t, a, e) && n >= 1 && a + n <= e
    ensures FirstFit(t, n) == a && !Overruns(t, n) && |t| == HEAP_BLOCKS
  {
    hide FirstFit, WellFormed;
    FirstFitIsExact(t, n);
    assert AllFree(t, a, n);
    NotBefore(t, a, FirstFit(t, n), n);
  }

  lemma NotBefore(t: Table, a: nat, r: int, n: nat)
    requires a <= |t| && AllFree(t, r, n) && n >= 1 && forall i :: 0 <= i < a ==> !IsFree(t[i])
    ensures a <= r
  {
    assert 0 <= r < |t| && IsFree(t[r]);
  }

  lemma TakeFromWindow(t: Table, a: nat, e: nat, n: nat)
    requires Window(t, a, e) && n >= 1 && a + n <= e
    ensures !Overruns(t, n) && a < HEAP_BLOCKS && KmallocAddress(t, n) == AddressOf(a)
    ensures Window(Kmalloc(t, n), a + n, e)
  {
    ScanWindow(t, a, e, n);
    hide FirstFit, WellFormed, Sound;
    KmallocIsSound(t, n);
  }

  lemma KmallocIsSound(t: Table, n: nat)
    requires Sound(t) && n >= 1 && !Overruns(t, n)
    ensures Sound(Kmalloc(t, n))
  {
    hide Sound, Pool;
    KmallocAdds(t, n);
  }

  lemma AllocateFromWindow(t: Table, a: nat, e: nat, n: nat)
    requires Window(t, a, e) && n >= 1 && a + n <= e
    ensures Sound(t) && a < HEAP_BLOCKS && Allocate(t, n).Some? && Allocate(t, n).value.1 == AddressOf(a)
    ensures Window(Allocate(t, n).value.0, a + n, e)
  {
    TakeFromWindow(t, a, e, n);
    hide Sound, Pool, Kmalloc, Overruns, KmallocAddress;
  }

  lemma {:induction false} TablesFromWindow(t: Table, m: Frames, d: word, i: nat, flags: Flags, a: nat, e: nat)
    requires i <= ENTRIES && d in m && |m[d]| == ENTRIES && FreeCount(t) >= ENTRIES - i
    requires Window(t, a, e) && a + (ENTRIES - i) <= e
    ensures Window(NewTables(t, m, d, i, flags).0, a + (ENTRIES - i), e)
    decreases ENTRIES - i
  {
    hide Window, FreeCount, MallocTable, MallocAddress, Overruns, AddTable;
    if i < ENTRIES {
      SingleBlockAlloc(t);
      TakeFromWindow(t, a, e, 1);
      TablesFromWindow(Kmalloc(t, 1), AddTable(m, d, i, KmallocAddress(t, 1), flags), d, i + 1, flags, a + 1, e);
    }
  }

  lemma {:induction false} WindowCount(t: Table, a: nat, e: nat)
    requires a <= e <= |t| && forall i :: a <= i < e ==> IsFree(t[i])
    ensures FreeCount(t) >= e - a
    decreases |t|
  {
    if t != [] && e > 0 {
      var a' := if a == 0 then 0 else a - 1;
      assert forall i :: a' <= i < e - 1 ==> t[1..][i] == t[i + 1];
      WindowCount(t[1..], a', e - 1);
    }
  }

  lemma WindowHasRoom(t: Table, a: nat, e: nat)
    requires Window(t, a, e)
    ensures Sound(t) && a <= e && FreeCount(t) >= e - a
  {
    hide WellFormed, FreeCount;
    WindowCount(t, a, e);
  }

  lemma SpaceFromWindow(t: Table, m: Frames, flags: Flags, a: nat, e: nat)
    requires Window(t, a, e) && a + SPACE_BLOCKS <= e
    ensures FreeCount(t) >= SPACE_BLOCKS && a < HEAP_BLOCKS && NewSpace(t, m, flags).dir == AddressOf(a)
    ensures Window(NewSpace(t, m, flags).table, a + SPACE_BLOCKS, e)
  {
    WindowHasRoom(t, a, e);
    hide Window, FreeCount, MallocTable, MallocAddress, Overruns;
    SingleBlockAlloc(t);
    TakeFromWindow(t, a, e, 1);
    var d := KmallocAddress(t, 1);
    TablesFromWindow(Kmalloc(t, 1), m[d := ZeroTable()], d, 0, flags, a + 1, e);
    var u := NewTables(Kmalloc(t, 1), m[d := ZeroTable()], d, 0, flags).0;
    SingleBlockAlloc(u);
    TakeFromWindow(u, a + 1 + ENTRIES, e, 1);
  }

  /**
   Blocks of an ELF process whose file has `n`: its struct, the loader's, the file, the stack, the task
   and the space.
   */
  function ElfBlocks(n: nat): nat {
    9 + n + SPACE_BLOCKS
  }

  /** One block, and then `n` behind it. */
  lemma TwoFromWindow(t: Table, n: nat, a: nat, e: nat) returns (t1: Table, u: Table)
    requires Window(t, a, e) && n >= 1 && a + 1 + n <= e
    ensures e <= HEAP_BLOCKS && Sound(t) && Sound(t1) && Sound(u) && Window(u, a + 1 + n, e)
    ensures Allocate(t, 1) == Some((t1, AddressOf(a))) && Allocate(t1, n) == Some((u, AddressOf(a + 1)))
  {
    hide Window, Sound, Allocate, Pool, InHeap, AddressOf, BlockOf;
    WindowEnds(t, a, e);
    AllocateFromWindow(t, a, e, 1);
    t1 := Allocate(t, 1).value.0;
    AllocateFromWindow(t1, a + 1, e, n);
    u := Allocate(t1, n).value.0;
  }

  lemma ImageFromWindow(t: Table, program: Program, n: nat, a: nat, e: nat) returns (u: Table)
    requires Window(t, a, e) && program.Elf? && program.calls == NO_CALLS
    requires n == Blocks(program.size) >= 1 && a + 1 + n <= e
    ensures Sound(t) && Sound(u) && e <= HEAP_BLOCKS && Window(u, a + 1 + n, e)
    ensures LoadProgram(t, program)
            == Some(LoadedProgram(u, ElfImage(AddressOf(a), AddressOf(a + 1), program.size), {}))
  {
    StructBlocks();
    hide Window, Sound, Allocate, Blocks, Pool, InHeap, AddressOf, BlockOf, LoadProgram;
    var t1;
    t1, u := TwoFromWindow(t, n, a, e);
    ElfInSteps(t, program, t1, AddressOf(a), u, AddressOf(a + 1));
  }

  lemma ElfInSteps(t: Table, program: Program, t1: Table, file: word, t2: Table, memory: word)
    requires Sound(t) && Sound(t1) && program.Elf? && program.calls == NO_CALLS
    requires Allocate(t, Blocks(ELF_STRUCT)) == Some((t1, file))
    requires Allocate(t1, Blocks(program.size)) == Some((t2, memory))
    ensures LoadProgram(t, program) == Some(LoadedProgram(t2, ElfImage(file, memory, program.size), {}))
  {
    hide Sound, Allocate, Blocks, Pool, InHeap;
    assert Called(t1, [], []) == Some((t1, []));
    assert Called(t2, [], []) == Some((t2, []));
    assert Members([]) == {};
  }

  lemma TaskFromWindow(t: Table, m: Frames, a: nat, e: nat)
    requires Window(t, a, e) && a + 5 + SPACE_BLOCKS <= e
    ensures Sound(t) && e <= HEAP_BLOCKS && Allocate(t, Blocks(STACK_SIZE)).Some?
    ensures var t1 := Allocate(t, Blocks(STACK_SIZE)).value.0;
            Allocate(t1, Blocks(TASK_STRUCT)).Some? && Allocate(t1, Blocks(TASK_STRUCT)).value.1 == AddressOf(a + 4)
    ensures var t1 := Allocate(t, Blocks(STACK_SIZE)).value.0;
            var t2 := Allocate(t1, Blocks(TASK_STRUCT)).value.0;
            && FreeCount(t2) >= SPACE_BLOCKS && NewSpace(t2, m, USER_FLAGS).dir == AddressOf(a + 5)
            && Window(NewSpace(t2, m, USER_FLAGS).table, a + 5 + SPACE_BLOCKS, e)
  {
    StructBlocks();
    WindowEnds(t, a, e);
    hide Window, Sound, Allocate, FreeCount, NewSpace, Blocks, Pool, InHeap, AddressOf, BlockOf;
    AllocateFromWindow(t, a, e, 4);
    var t1 := Allocate(t, 4).value.0;
    AllocateFromWindow(t1, a + 4, e, 1);
    SpaceFromWindow(Allocate(t1, 1).value.0, m, USER_FLAGS, a + 5, e);
  }

  /** The process has its blocks one after the other from block `a` on, and the window goes on behind them. */
  ghost predicate LaidOut(r: Loaded, size: word, a: nat, e: nat) {
    var n := Blocks(size);
    && a + ElfBlocks(n) <= HEAP_BLOCKS && Window(r.mem.table, a + ElfBlocks(n), e) && r.leaked == {}
    && r.process.self == AddressOf(a) && r.process.image == ElfImage(AddressOf(a + 3), AddressOf(a + 4), size)
    && r.process.task == AddressOf(a + 8 + n) && r.process.dir == AddressOf(a + 9 + n)
    && r.process.records == EmptyRecords()
  }

  /** The struct and the program. */
  lemma StartFromWindow(t: Table, program: Program, n: nat, a: nat, e: nat) returns (t1: Table, t2: Table)
    requires Window(t, a, e) && program.Elf? && program.calls == NO_CALLS
    requires n == Blocks(program.size) >= 1 && a + 4 + n <= e
    ensures Sound(t) && Sound(t1) && e <= HEAP_BLOCKS && Window(t2, a + 4 + n, e)
    ensures Allocate(t, 3) == Some((t1, AddressOf(a)))
    ensures LoadProgram(t1, program)
            == Some(LoadedProgram(t2, ElfImage(AddressOf(a + 3), AddressOf(a + 4), program.size), {}))
  {
    hide Window, Sound, Allocate, LoadProgram, Blocks, Pool, InHeap, AddressOf, BlockOf;
    AllocateFromWindow(t, a, e, 3);
    t1 := Allocate(t, 3).value.0;
    t2 := ImageFromWindow(t1, program, n, a + 3, e);
  }

  /**
   An ELF file, whatever its headers, opened without further allocations is laid out in the window in the
   order in which it is allocated.
   */
  lemma ProcessFromWindow(mem: Memory, program: Program, a: nat, e: nat)
    requires Window(mem.table, a, e) && program.Elf? && program.calls == NO_CALLS && Blocks(program.size) >= 1
    requires a + ElfBlocks(Blocks(program.size)) <= e
    ensures Sound(mem.table) && AllocateProcess(mem, program).Some?
    ensures LaidOut(AllocateProcess(mem, program).value, program.size, a, e)
  {
    var n := Blocks(program.size);
    hide Window, Sound, Allocate, LoadProgram, FreeCount, NewSpace, Blocks, EmptyRecords, Pool, InHeap, AddressOf,
      BlockOf, AllocateProcess;
    StructBlocks();
    var t1, t2 := StartFromWindow(mem.table, program, n, a, e);
    var loaded := LoadProgram(t1, program).value;
    TaskFromWindow(t2, mem.frames, a + 4 + n, e);
    var (t3, stack) := Allocate(t2, Blocks(STACK_SIZE)).value;
    var (t4, task) := Allocate(t3, Blocks(TASK_STRUCT)).value;
    var b := NewSpace(t4, mem.frames, USER_FLAGS);
    var r := Loaded(Memory(b.table, b.frames),
                    Process(AddressOf(a), loaded.image, stack, task, b.dir, b.chunk, EmptyRecords()), {});
    AllocateProcessInSteps(mem, program, t1, loaded, t3, t4, r);
    assert LaidOut(r, program.size, a, e);
  }

  lemma WindowEnds(t: Table, a: nat, e: nat)
    requires Window(t, a, e)
    ensures e <= HEAP_BLOCKS
  {
    hide WellFormed;
  }

  // ---------- a new directory ----------

  lemma DirectoryEntryWritable(live: set<word>, m: Frames, n: Frames, d: word, chunk: word, i: nat)
    requires FreshSpace(live, m, USER_FLAGS, n, d, chunk) && i < ENTRIES
    ensures d in n && |n[d]| == ENTRIES && Writable(n[d][i])
  {
    TableEntryWritable(n, d, i);
  }

  lemma TableEntryWritable(n: Frames, d: word, i: nat)
    requires d in n && |n[d]| == ENTRIES && i < ENTRIES && n[d][i] == TableAt(n, d, i) + WithWriteable(USER_FLAGS)
    ensures Writable(n[d][i])
  {
    AlignedWritable(TableAt(n, d, i));
  }

  lemma AlignedWritable(a: word)
    requires Aligned(a)
    ensures WithWriteable(USER_FLAGS) == 7 && (a + 7) % 8 == 7
  {
  }
}
