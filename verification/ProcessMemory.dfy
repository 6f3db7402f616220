/**
 What one process does to the kernel's memory: its allocation records, its page tables and
 the blocks it holds (src/task/process.c, seen on values).
 */
module ProcessMemory {
  import opened Wrappers
  import opened Words
  import opened HeapTable
  import opened Heap
  import opened KernelHeap
  import opened PageTables
  import opened AddressSpace

  const MAX_ALLOCATIONS := 1024
  const PROGRAM_ADDRESS: word := 0x40_0000
  const STACK_SIZE: word := 16384
  const STACK_END: word := 0x3F_F000 - 16384

  // sizeof of the kernel's own structs.
  const PROCESS_STRUCT: word := 9364
  const TASK_STRUCT: word := 64
  const ELF_STRUCT: word := 132

  lemma StructBlocks()
    ensures Blocks(PROCESS_STRUCT) == 3 && Blocks(ELF_STRUCT) == 1 && Blocks(STACK_SIZE) == 4
    ensures Blocks(TASK_STRUCT) == 1
  {
  }

  const USER_FLAGS: Flags := PRESENT + ACCESS_FROM_ALL
  const USER_WRITE_FLAGS: Flags := PRESENT + WRITEABLE + ACCESS_FROM_ALL

  /** The shared memory that every process works on. */
  datatype Memory = Memory(table: Table, frames: Frames)

  /** struct process_allocation; a null `ptr` marks an empty record. */
  datatype Allocation = Allocation(ptr: word, size: word)

  // ---------- records ----------

  /** First record at or after `i` with pointer `ptr`, or -1. */
  function IndexOf(r: seq<Allocation>, ptr: word, i: nat): (k: int)
    requires i <= |r|
    ensures k == -1 || (i <= k < |r| && r[k].ptr == ptr)
    ensures k == -1 ==> forall j :: i <= j < |r| ==> r[j].ptr != ptr
    ensures k != -1 ==> forall j :: i <= j < k ==> r[j].ptr != ptr
    decreases |r| - i
  {
    if i == |r| then -1 else if r[i].ptr == ptr then i else IndexOf(r, ptr, i + 1)
  }

  /** process_allocation_unjoin */
  function Unjoin(r: seq<Allocation>, ptr: word): (s: seq<Allocation>)
    ensures |s| == |r|
    ensures forall i :: 0 <= i < |r| ==> s[i] == if r[i].ptr == ptr then Allocation(0, 0) else r[i]
  {
    seq(|r|, i requires 0 <= i < |r| => if r[i].ptr == ptr then Allocation(0, 0) else r[i])
  }

  ghost predicate RecordsInHeap(r: seq<Allocation>) {
    forall i :: 0 <= i < |r| && r[i].ptr != 0 ==> InHeap(r[i].ptr)
  }

  // ---------- process_malloc and process_free ----------

  datatype MallocResult = MallocResult(mem: Memory, records: seq<Allocation>, ptr: word)

  /** process_malloc; on its error paths the block stays allocated (the test before kfree is inverted). */
  function Malloc(mem: Memory, d: word, r: seq<Allocation>, size: word): (res: MallocResult)
    requires Paged(mem.frames, d) && Blocks(size) >= 1 && !Overruns(mem.table, Blocks(size))
    ensures Paged(res.mem.frames, d)
  {
    var n := Blocks(size);
    var ptr := KmallocAddress(mem.table, n);
    if ptr == 0 then MallocResult(mem.(table := Kmalloc(mem.table, n)), r, 0)
    else
      var taken := mem.(table := Kmalloc(mem.table, n));
      var index := IndexOf(r, 0, 0);
      if index < 0 then MallocResult(taken, r, 0)
      else
        var (m, res) := MapTo(mem.frames, d, ptr, ptr, AlignAddress(Wrap(ptr + size)), USER_WRITE_FLAGS);
        if res < 0 then MallocResult(taken.(frames := m), r, 0)
        else MallocResult(taken.(frames := m), r[index := Allocation(ptr, size)], ptr)
  }

  /** process_free of a non-null pointer; a pointer without a record is ignored. */
  function Free(mem: Memory, d: word, r: seq<Allocation>, ptr: word): (res: (Memory, seq<Allocation>))
    requires Paged(mem.frames, d) && RecordsInHeap(r) && ptr != 0
    ensures Paged(res.0.frames, d) && res.0.frames[d] == mem.frames[d]
    ensures RecordsInHeap(res.1) && |res.1| == |r|
  {
    var index := IndexOf(r, ptr, 0);
    if index < 0 then (mem, r)
    else
      var (m, res) := MapTo(mem.frames, d, ptr, ptr, AlignAddress(Wrap(ptr + r[index].size)), 0);
      if res < 0 then (mem.(frames := m), r)
      else
        HeapAddressToBlock(ptr);
        (Memory(Kfree(mem.table, ptr), m), Unjoin(r, ptr))
  }

  /** process_terminate_allocations from record `i` on, skipping the empty records. */
  function FreeRecords(mem: Memory, d: word, r: seq<Allocation>, i: nat): (res: (Memory, seq<Allocation>))
    requires Paged(mem.frames, d) && RecordsInHeap(r) && i <= |r|
    ensures Paged(res.0.frames, d) && res.0.frames[d] == mem.frames[d]
    decreases |r| - i
  {
    if i == |r| then (mem, r)
    else if r[i].ptr == 0 then FreeRecords(mem, d, r, i + 1)
    else
      var (next, s) := Free(mem, d, r, r[i].ptr);
      FreeRecords(next, d, s, i + 1)
  }

  // ---------- program images ----------

  /** The fields of an ELF program header that mapping uses; `offset` is signed in the file format. */
  datatype Header = Header(offset: int, vaddr: word, memsz: word, writable: bool)

  /** What the file system does with the heap on the way: it takes a block, or gives back the k-th that it has. */
  datatype Call = Take(size: word) | GiveBack(k: nat)

  /** Its calls before a file is read into memory, after that, and after a flat binary is read once more. */
  datatype Calls = Calls(opening: seq<Call>, closing: seq<Call>, again: seq<Call>)

  const NO_CALLS := Calls([], [], [])

  /** A program file: a flat binary, or an ELF file with its program headers. */
  datatype Program = Binary(size: word, calls: Calls) | Elf(size: word, headers: seq<Header>, calls: Calls)

  /** Where a program was loaded: its file contents, and for ELF also the elf_file struct. */
  datatype Image = BinaryImage(memory: word, size: word) | ElfImage(file: word, memory: word, size: word)

  /** process_map_elf from the first of `hs` on. */
  function MapHeaders(m: Frames, d: word, memory: word, hs: seq<Header>): (r: (Frames, int))
    requires Paged(m, d)
    ensures Paged(r.0, d) && r.0[d] == m[d]
    decreases |hs|
  {
    if hs == [] then (m, 0)
    else
      var phys := Wrap(memory + hs[0].offset);
      var flags := if hs[0].writable then USER_WRITE_FLAGS else USER_FLAGS;
      var (n, res) := MapTo(m, d, Mask(hs[0].vaddr), Mask(phys), AlignAddress(Wrap(phys + hs[0].memsz)), flags);
      if res < 0 then (n, res) else MapHeaders(n, d, memory, hs[1..])
  }

  /** process_map_binary; it ignores the mapping's result. */
  function MapBinary(m: Frames, d: word, ptr: word, size: word): (r: Frames)
    requires Paged(m, d)
    ensures Paged(r, d) && r[d] == m[d]
  {
    MapTo(m, d, PROGRAM_ADDRESS, ptr, AlignAddress(Wrap(ptr + size)), USER_WRITE_FLAGS).0
  }

  /** The last part of process_map_memory: the stack, below PROGRAM_ADDRESS. */
  function MapStack(m: Frames, d: word, stack: word): (r: Frames)
    requires Paged(m, d)
    ensures Paged(r, d) && r[d] == m[d]
  {
    MapTo(m, d, STACK_END, stack, AlignAddress(Wrap(stack + STACK_SIZE)), USER_WRITE_FLAGS).0
  }

  function HeadersOf(program: Program): seq<Header> {
    match program
    case Binary(_, _) => []
    case Elf(_, hs, _) => hs
  }

  /** process_map_memory */
  function MapMemory(m: Frames, d: word, image: Image, hs: seq<Header>, stack: word): (r: (Frames, int))
    requires Paged(m, d)
    ensures Paged(r.0, d) && r.0[d] == m[d]
  {
    match image
    case BinaryImage(memory, size) => (MapStack(MapBinary(m, d, memory, size), d, stack), 0)
    case ElfImage(_, memory, _) =>
      var (n, res) := MapHeaders(m, d, memory, hs);
      if res < 0 then (n, res) else (MapStack(n, d, stack), res)
  }

  // ---------- process_load_for_slot, the successful path ----------

  datatype Process = Process(self: word, image: Image, stack: word, task: word, dir: word, chunk: word,
                             records: seq<Allocation>)

  /** An allocation that succeeds; none when the scan fails or would overrun the table. */
  function Allocate(t: Table, n: nat): (r: Option<(Table, word)>)
    requires Sound(t)
    ensures r.Some? ==> n >= 1 && Sound(r.value.0) && InHeap(r.value.1) && r.value.1 !in Pool(t)
    ensures r.Some? ==> Pool(r.value.0) == Pool(t)[r.value.1 := n]
  {
    if n >= 1 && !Overruns(t, n) && KmallocAddress(t, n) != 0 then
      KmallocAdds(t, n);
      Some((Kmalloc(t, n), KmallocAddress(t, n)))
    else None
  }

  /** A loaded program: the new table, the image, and the blocks the loader never gives back. */
  datatype LoadedProgram = LoadedProgram(table: Table, image: Image, leaked: set<word>)

  /** The calls `cs` of the file system's, which has the blocks `own`; it keeps what it does not give back. */
  ghost function Called(t: Table, cs: seq<Call>, own: seq<word>): (r: Option<(Table, seq<word>)>)
    requires Sound(t)
    ensures r.Some? ==> Sound(r.value.0)
    decreases |cs|
  {
    if cs == [] then Some((t, own))
    else
      match cs[0]
      case Take(size) =>
        var (u, p) :- Allocate(t, Blocks(size));
        Called(u, cs[1..], own + [p])
      case GiveBack(k) =>
        if k < |own| && own[k] in Pool(t) then
          KfreeRemoves(t, own[k]);
          Called(Kfree(t, own[k]), cs[1..], Less(own, k))
        else None
  }

  function Less(own: seq<word>, k: nat): seq<word>
    requires k < |own|
  {
    own[..k] + own[k + 1..]
  }

  function Members(own: seq<word>): set<word> {
    set p | p in own
  }

  /**
   process_load_data: every file is first read as ELF; when it is not one, the elf_file
   struct and the copy read into memory are left allocated, and the file is read again.
   */
  ghost function LoadProgram(t: Table, program: Program): (r: Option<LoadedProgram>)
    requires Sound(t)
    ensures r.Some? ==> Sound(r.value.table)
  {
    var (t1, file) :- Allocate(t, Blocks(ELF_STRUCT));
    var (t2, first) :- Called(t1, program.calls.opening, []);
    var (t3, memory) :- Allocate(t2, Blocks(program.size));
    var (t4, closed) :- Called(t3, program.calls.closing, first);
    match program
    case Elf(size, _, _) => Some(LoadedProgram(t4, ElfImage(file, memory, size), Members(closed)))
    case Binary(size, calls) =>
      var (t5, ptr) :- Allocate(t4, Blocks(size));
      var (t6, left) :- Called(t5, calls.again, closed);
      Some(LoadedProgram(t6, BinaryImage(ptr, size), Members(left) + {file, memory}))
  }

  datatype Loaded = Loaded(mem: Memory, process: Process, leaked: set<word>)

  function EmptyRecords(): (r: seq<Allocation>)
    ensures |r| == MAX_ALLOCATIONS
  {
    seq(MAX_ALLOCATIONS, i => Allocation(0, 0))
  }

  /** Everything process_load_for_slot allocates, before any mapping. */
  ghost function AllocateProcess(mem: Memory, program: Program): (r: Option<Loaded>)
    requires Sound(mem.table)
    ensures r.Some? ==> Paged(r.value.mem.frames, r.value.process.dir)
  {
    var (t1, self) :- Allocate(mem.table, Blocks(PROCESS_STRUCT));
    var loaded :- LoadProgram(t1, program);
    var (t3, stack) :- Allocate(loaded.table, Blocks(STACK_SIZE));
    var (t4, task) :- Allocate(t3, Blocks(TASK_STRUCT));
    if FreeCount(t4) < SPACE_BLOCKS then None
    else
      NewSpaceFacts(t4, mem.frames, USER_FLAGS);
      var b := NewSpace(t4, mem.frames, USER_FLAGS);
      Some(Loaded(Memory(b.table, b.frames),
                  Process(self, loaded.image, stack, task, b.dir, b.chunk, EmptyRecords()),
                  loaded.leaked))
  }

  /** The same, for code that has made the allocations one by one. */
  lemma AllocateProcessInSteps(mem: Memory, program: Program, t1: Table, loaded: LoadedProgram, t3: Table, t4: Table,
                               r: Loaded)
    requires Sound(mem.table) && Allocate(mem.table, Blocks(PROCESS_STRUCT)) == Some((t1, r.process.self))
    requires LoadProgram(t1, program) == Some(loaded) && loaded.image == r.process.image && loaded.leaked == r.leaked
    requires Allocate(loaded.table, Blocks(STACK_SIZE)) == Some((t3, r.process.stack))
    requires Allocate(t3, Blocks(TASK_STRUCT)) == Some((t4, r.process.task)) && FreeCount(t4) >= SPACE_BLOCKS
    requires NewSpace(t4, mem.frames, USER_FLAGS) == Built(r.mem.table, r.mem.frames, r.process.dir, r.process.chunk)
    requires r.process.records == EmptyRecords()
    ensures AllocateProcess(mem, program) == Some(r)
  {
    hide Sound, Allocate, LoadProgram, FreeCount, NewSpace, EmptyRecords;
  }

  /** process_load_for_slot when it succeeds. */
  ghost function Load(mem: Memory, program: Program): Option<Loaded>
    requires Sound(mem.table)
  {
    var loaded :- AllocateProcess(mem, program);
    var p := loaded.process;
    var (m, res) := MapMemory(loaded.mem.frames, p.dir, p.image, HeadersOf(program), p.stack);
    if res < 0 then None else Some(loaded.(mem := loaded.mem.(frames := m)))
  }

  // ---------- process_terminate ----------

  /** All addresses a live process is made of lie in the heap. */
  ghost predicate Ready(m: Frames, p: Process) {
    && TablesInHeap(m, p.dir) && InHeap(p.dir) && InHeap(p.chunk)
    && InHeap(p.image.memory) && (p.image.ElfImage? ==> InHeap(p.image.file))
    && InHeap(p.stack) && InHeap(p.task) && RecordsInHeap(p.records)
  }

  /** process_free_program_data */
  function FreeProgram(t: Table, image: Image): Table
    requires InHeap(image.memory) && (image.ElfImage? ==> InHeap(image.file))
  {
    HeapAddressToBlock(image.memory);
    match image
    case BinaryImage(memory, _) => Kfree(t, memory)
    case ElfImage(file, memory, _) =>
      HeapAddressToBlock(file);
      Kfree(Kfree(t, memory), file)
  }

  /** process_terminate: everything the process holds except its own struct. */
  function Terminate(mem: Memory, p: Process): Memory
    requires Ready(mem.frames, p)
  {
    HeapAddressToBlock(p.stack);
    HeapAddressToBlock(p.task);
    var next := FreeRecords(mem, p.dir, p.records, 0).0;
    SameTablesInHeap(mem.frames, next.frames, p.dir);
    var t := Kfree(FreeProgram(next.table, p.image), p.stack);
    Memory(Kfree(FreeSpace(t, next.frames, p.dir, p.chunk), p.task), next.frames)
  }

  lemma SameTablesInHeap(m: Frames, n: Frames, d: word)
    requires TablesInHeap(m, d) && Paged(n, d) && n[d] == m[d]
    ensures TablesInHeap(n, d)
  {
    assert forall j :: 0 <= j < ENTRIES ==> TableAt(n, d, j) == TableAt(m, d, j);
  }

  // ---------- what a process holds ----------

  datatype Kind = StructKind | ElfKind | ImageKind | StackKind | TaskKind | SpaceKind | RecordKind

  ghost function RecordPointers(r: seq<Allocation>): set<word> {
    set i | 0 <= i < |r| && r[i].ptr != 0 :: r[i].ptr
  }

  /** The heap blocks that process `p` holds in each role. */
  ghost function Held(m: Frames, p: Process, k: Kind): set<word>
    requires Paged(m, p.dir)
  {
    match k
    case StructKind => {p.self}
    case ElfKind => if p.image.ElfImage? then {p.image.file} else {}
    case ImageKind => {p.image.memory}
    case StackKind => {p.stack}
    case TaskKind => {p.task}
    case SpaceKind => SpaceBlocks(m, p.dir, p.chunk)
    case RecordKind => RecordPointers(p.records)
  }

  /** How many blocks an allocation in each of the fixed roles spans. */
  ghost predicate RightSizes(pool: map<word, nat>, m: Frames, p: Process)
    requires Paged(m, p.dir)
  {
    && p.self in pool && pool[p.self] == Blocks(PROCESS_STRUCT)
    && p.image.memory in pool && pool[p.image.memory] == Blocks(p.image.size) >= 1
    && (p.image.ElfImage? ==> p.image.file in pool && pool[p.image.file] == Blocks(ELF_STRUCT))
    && p.stack in pool && pool[p.stack] == Blocks(STACK_SIZE)
    && p.task in pool && pool[p.task] == Blocks(TASK_STRUCT)
    && (forall a :: a in SpaceBlocks(m, p.dir, p.chunk) ==> a in pool && pool[a] == 1)
  }

  /** Loading only adds: new blocks, each in one role, none of them live before. */
  ghost predicate FreshProcess(pool: map<word, nat>, pool': map<word, nat>, m: Frames, p: Process, leaked: set<word>)
    requires Paged(m, p.dir)
  {
    && (forall k :: Held(m, p, k) !! pool.Keys && Held(m, p, k) !! leaked)
    && (forall k, l :: k != l ==> Held(m, p, k) !! Held(m, p, l))
    && leaked !! pool.Keys
    && (forall a :: a in pool ==> a in pool' && pool'[a] == pool[a])
    && (forall a :: a in pool' <==> a in pool || a in leaked || exists k :: a in Held(m, p, k))
    && RightSizes(pool', m, p)
    && p.chunk !in Footprint(m, p.dir)
  }

  ghost predicate FreshImage(pool: map<word, nat>, pool': map<word, nat>, image: Image, leaked: set<word>) {
    && image.memory !in pool && image.memory !in leaked && leaked !! pool.Keys
    && (image.ElfImage? ==> image.file !in pool && image.file != image.memory && image.file !in leaked)
    && pool'.Keys == pool.Keys + leaked + {image.memory} + (if image.ElfImage? then {image.file} else {})
    && (forall a :: a in pool ==> pool'[a] == pool[a])
    && pool'[image.memory] == Blocks(image.size) >= 1
    && (image.ElfImage? ==> pool'[image.file] == Blocks(ELF_STRUCT))
  }

  /** `own` are different live blocks, and the rest of the pool is `rest`. */
  ghost predicate OwnAside(pool: map<word, nat>, own: seq<word>, rest: map<word, nat>) {
    && (forall i :: 0 <= i < |own| ==> own[i] in pool)
    && (forall i, j :: 0 <= i < j < |own| ==> own[i] != own[j])
    && pool - Members(own) == rest
  }

  lemma TakeAside(pool: map<word, nat>, own: seq<word>, rest: map<word, nat>, p: word, n: nat)
    requires OwnAside(pool, own, rest) && p !in pool
    ensures OwnAside(pool[p := n], own + [p], rest)
  {
    assert Members(own + [p]) == Members(own) + {p};
  }

  lemma GiveBackAside(pool: map<word, nat>, own: seq<word>, rest: map<word, nat>, k: nat)
    requires OwnAside(pool, own, rest) && k < |own|
    ensures OwnAside(pool - {own[k]}, Less(own, k), rest)
  {
    var less := Less(own, k);
    assert forall i :: 0 <= i < |less| ==> less[i] == own[if i < k then i else i + 1];
    forall p
      ensures p in Members(less) <==> p in Members(own) && p != own[k]
    {
      if p in Members(own) && p != own[k] {
        var i :| 0 <= i < |own| && own[i] == p;
        assert less[if i < k then i else i - 1] == p;
      }
    }
    assert pool - {own[k]} - Members(less) == pool - Members(own);
  }

  /** The file system's calls leave all other blocks alone. */
  lemma {:induction false} CalledAside(t: Table, cs: seq<Call>, own: seq<word>, rest: map<word, nat>)
    requires Sound(t) && OwnAside(Pool(t), own, rest) && Called(t, cs, own).Some?
    ensures var (u, own') := Called(t, cs, own).value; OwnAside(Pool(u), own', rest)
    decreases |cs|
  {
    hide Sound, Pool, Allocate, Kfree, OwnAside, Blocks, AddressToBlock, Less;
    if cs != [] {
      match cs[0]
      case Take(size) =>
        var (u, p) := Allocate(t, Blocks(size)).value;
        TakeAside(Pool(t), own, rest, p, Blocks(size));
        CalledAside(u, cs[1..], own + [p], rest);
      case GiveBack(k) =>
        KfreeRemoves(t, own[k]);
        GiveBackAside(Pool(t), own, rest, k);
        CalledAside(Kfree(t, own[k]), cs[1..], Less(own, k), rest);
    }
  }

  lemma NothingAside(pool: map<word, nat>)
    ensures OwnAside(pool, [], pool)
  {
    assert Members([]) == {};
    assert pool - {} == pool;
  }

  lemma AllocateAside(pool: map<word, nat>, own: seq<word>, rest: map<word, nat>, p: word, n: nat)
    requires OwnAside(pool, own, rest) && p !in pool
    ensures OwnAside(pool[p := n], own, rest[p := n]) && p !in rest
  {
    assert pool[p := n] - Members(own) == rest[p := n];
  }

  /** What is kept apart from `rest` is new, and `rest` is as it was. */
  lemma AsideIsNew(pool: map<word, nat>, own: seq<word>, rest: map<word, nat>)
    requires OwnAside(pool, own, rest)
    ensures Members(own) !! rest.Keys && pool.Keys == rest.Keys + Members(own)
    ensures forall a :: a in rest ==> pool[a] == rest[a]
  {
    assert rest.Keys == pool.Keys - Members(own);
  }

  lemma ElfIsFresh(pool: map<word, nat>, pool': map<word, nat>, image: Image, own: seq<word>)
    requires image.ElfImage? && image.file !in pool && image.memory !in pool && image.memory != image.file
    requires Blocks(image.size) >= 1
    requires OwnAside(pool', own, pool[image.file := Blocks(ELF_STRUCT)][image.memory := Blocks(image.size)])
    ensures FreshImage(pool, pool', image, Members(own))
  {
    hide Blocks, OwnAside, Members;
    AsideIsNew(pool', own, pool[image.file := Blocks(ELF_STRUCT)][image.memory := Blocks(image.size)]);
  }

  lemma BinaryIsFresh(pool: map<word, nat>, pool': map<word, nat>, image: Image, own: seq<word>, file: word,
                      copy: word, n: nat)
    requires image.BinaryImage? && file !in pool && copy !in pool[file := n] && Blocks(image.size) >= 1
    requires image.memory !in pool[file := n][copy := Blocks(image.size)]
    requires OwnAside(pool', own, pool[file := n][copy := Blocks(image.size)][image.memory := Blocks(image.size)])
    ensures FreshImage(pool, pool', image, Members(own) + {file, copy})
  {
    hide Blocks, OwnAside, Members;
    AsideIsNew(pool', own, pool[file := n][copy := Blocks(image.size)][image.memory := Blocks(image.size)]);
  }

  lemma LoadProgramIsFresh(t: Table, program: Program)
    requires Sound(t)
    ensures var r := LoadProgram(t, program);
            r.Some? ==> FreshImage(Pool(t), Pool(r.value.table), r.value.image, r.value.leaked)
                        && r.value.image.size == program.size
  {
    hide Sound, Pool, Allocate, Called, Blocks, OwnAside, Members, FreshImage;
    if LoadProgram(t, program).Some? {
      var (t1, file) := Allocate(t, Blocks(ELF_STRUCT)).value;
      var (t2, first) := Called(t1, program.calls.opening, []).value;
      var (t3, memory) := Allocate(t2, Blocks(program.size)).value;
      var (t4, closed) := Called(t3, program.calls.closing, first).value;
      NothingAside(Pool(t1));
      CalledAside(t1, program.calls.opening, [], Pool(t1));
      AllocateAside(Pool(t2), first, Pool(t1), memory, Blocks(program.size));
      CalledAside(t3, program.calls.closing, first, Pool(t1)[memory := Blocks(program.size)]);
      match program
      case Elf(size, _, _) =>
        ElfIsFresh(Pool(t), Pool(t4), ElfImage(file, memory, size), closed);
      case Binary(size, calls) =>
        var (t5, ptr) := Allocate(t4, Blocks(size)).value;
        AllocateAside(Pool(t4), closed, Pool(t1)[memory := Blocks(size)], ptr, Blocks(size));
        var (t6, left) := Called(t5, calls.again, closed).value;
        CalledAside(t5, calls.again, closed, Pool(t1)[memory := Blocks(size)][ptr := Blocks(size)]);
        BinaryIsFresh(Pool(t), Pool(t6), BinaryImage(ptr, size), left, file, memory, Blocks(ELF_STRUCT));
    }
  }

  /**
   Loading a flat binary leaves the struct and the copy of the attempt to read it as ELF behind: two live
   blocks that no role of the process has.
   */
  lemma BinaryLeavesCopy(t: Table, program: Program) returns (file: word, copy: word)
    requires Sound(t) && LoadProgram(t, program).Some? && program.Binary?
    ensures var r := LoadProgram(t, program).value;
            && file != copy && r.image.memory != file && r.image.memory != copy && {file, copy} <= r.leaked
            && file !in Pool(t) && file in Pool(r.table) && Pool(r.table)[file] == Blocks(ELF_STRUCT)
            && copy !in Pool(t) && copy in Pool(r.table) && Pool(r.table)[copy] == Blocks(program.size)
  {
    hide Sound, Pool, Allocate, Called, Blocks, OwnAside, Members;
    var n := Blocks(program.size);
    var (t1, p) := Allocate(t, Blocks(ELF_STRUCT)).value;
    var (t2, first) := Called(t1, program.calls.opening, []).value;
    var (t3, q) := Allocate(t2, n).value;
    var (t4, closed) := Called(t3, program.calls.closing, first).value;
    var (t5, ptr) := Allocate(t4, n).value;
    var (t6, left) := Called(t5, program.calls.again, closed).value;
    file, copy := p, q;
    NothingAside(Pool(t1));
    CalledAside(t1, program.calls.opening, [], Pool(t1));
    AsideIsNew(Pool(t2), first, Pool(t1));
    AllocateAside(Pool(t2), first, Pool(t1), q, n);
    CalledAside(t3, program.calls.closing, first, Pool(t1)[q := n]);
    AsideIsNew(Pool(t4), closed, Pool(t1)[q := n]);
    AllocateAside(Pool(t4), closed, Pool(t1)[q := n], ptr, n);
    CalledAside(t5, program.calls.again, closed, Pool(t1)[q := n][ptr := n]);
    AsideIsNew(Pool(t6), left, Pool(t1)[q := n][ptr := n]);
  }

  /** The order in which loading allocates the roles. */
  function Layer(k: Kind): nat {
    match k
    case StructKind => 0
    case ElfKind => 1
    case ImageKind => 2
    case StackKind => 3
    case TaskKind => 4
    case SpaceKind => 5
    case RecordKind => 6
  }

  /** `At(j)` is what was live before layer `j` was allocated; from 6 on, everything is. */
  datatype Layers = Layers(l0: set<word>, l1: set<word>, l2: set<word>, l3: set<word>, l4: set<word>, l5: set<word>,
                           l6: set<word>) {
    function At(j: nat): set<word> {
      match j
      case 0 => l0
      case 1 => l1
      case 2 => l2
      case 3 => l3
      case 4 => l4
      case 5 => l5
      case _ => l6
    }
  }

  ghost predicate Layered(ls: Layers, m: Frames, p: Process, leaked: set<word>)
    requires Paged(m, p.dir)
  {
    && ls.l1 == ls.l0 + Held(m, p, StructKind) && Held(m, p, StructKind) !! ls.l0
    && ls.l2 == ls.l1 + leaked + Held(m, p, ElfKind) && leaked !! ls.l1 && Held(m, p, ElfKind) !! ls.l1 + leaked
    && ls.l3 == ls.l2 + Held(m, p, ImageKind) && Held(m, p, ImageKind) !! ls.l2
    && ls.l4 == ls.l3 + Held(m, p, StackKind) && Held(m, p, StackKind) !! ls.l3
    && ls.l5 == ls.l4 + Held(m, p, TaskKind) && Held(m, p, TaskKind) !! ls.l4
    && ls.l6 == ls.l5 + Held(m, p, SpaceKind) && Held(m, p, SpaceKind) !! ls.l5
    && Held(m, p, RecordKind) == {}
  }

  lemma LayerOfKind(ls: Layers, m: Frames, p: Process, leaked: set<word>, k: Kind)
    requires Paged(m, p.dir) && Layered(ls, m, p, leaked)
    ensures Held(m, p, k) <= ls.At(Layer(k) + 1) && Held(m, p, k) !! ls.At(Layer(k))
    ensures Held(m, p, k) !! leaked && ls.l0 <= ls.At(Layer(k))
    ensures Held(m, p, k) <= ls.l6
  {
    hide Held, Paged;
    match k
    case StructKind =>
    case ElfKind =>
    case ImageKind =>
    case StackKind =>
    case TaskKind =>
    case SpaceKind =>
    case RecordKind =>
  }

  lemma LayersGrow(ls: Layers, m: Frames, p: Process, leaked: set<word>, i: nat, j: nat)
    requires Paged(m, p.dir) && Layered(ls, m, p, leaked) && i <= j
    ensures ls.At(i) <= ls.At(j)
  {
    hide Held, Paged;
  }

  lemma KindsAreDisjoint(ls: Layers, m: Frames, p: Process, leaked: set<word>, k: Kind, l: Kind)
    requires Paged(m, p.dir) && Layered(ls, m, p, leaked) && Layer(k) < Layer(l)
    ensures Held(m, p, k) !! Held(m, p, l)
  {
    LayerOfKind(ls, m, p, leaked, k);
    LayerOfKind(ls, m, p, leaked, l);
    LayersGrow(ls, m, p, leaked, Layer(k) + 1, Layer(l));
  }

  lemma LayersCover(ls: Layers, m: Frames, p: Process, leaked: set<word>, a: word)
    requires Paged(m, p.dir) && Layered(ls, m, p, leaked) && a in ls.l6
    ensures a in ls.l0 || a in leaked || exists k :: a in Held(m, p, k)
  {
    hide Held, Paged;
    assert a in ls.l0 || a in leaked || a in Held(m, p, StructKind) || a in Held(m, p, ElfKind)
      || a in Held(m, p, ImageKind)
        || a in Held(m, p, StackKind) || a in Held(m, p, TaskKind) || a in Held(m, p, SpaceKind);
  }

  lemma LayersMakeFreshProcess(ls: Layers, pool: map<word, nat>, pool': map<word, nat>, m: Frames, p: Process,
                               leaked: set<word>)
    requires Paged(m, p.dir) && Layered(ls, m, p, leaked) && pool.Keys == ls.l0 && pool'.Keys == ls.l6
    requires forall a :: a in pool ==> a in pool' && pool'[a] == pool[a]
    requires RightSizes(pool', m, p) && p.chunk !in Footprint(m, p.dir)
    ensures FreshProcess(pool, pool', m, p, leaked)
  {
    hide Held, Paged, RightSizes, Footprint;
    forall k
      ensures Held(m, p, k) !! ls.l0 && Held(m, p, k) !! leaked && Held(m, p, k) <= ls.l6
    {
      LayerOfKind(ls, m, p, leaked, k);
    }
    forall k, l | k != l
      ensures Held(m, p, k) !! Held(m, p, l)
    {
      if Layer(k) < Layer(l) {
        KindsAreDisjoint(ls, m, p, leaked, k, l);
      } else {
        KindsAreDisjoint(ls, m, p, leaked, l, k);
      }
    }
    forall a | a in ls.l6
      ensures a in ls.l0 || a in leaked || exists k :: a in Held(m, p, k)
    {
      LayersCover(ls, m, p, leaked, a);
    }
  }

  /** The pools that loading goes through, one allocation after the other. */
  ghost predicate LoadSteps(ps: seq<map<word, nat>>, m: Frames, p: Process, leaked: set<word>)
    requires Paged(m, p.dir)
  {
    && |ps| == 6
    && p.self !in ps[0] && ps[1] == ps[0][p.self := Blocks(PROCESS_STRUCT)]
    && FreshImage(ps[1], ps[2], p.image, leaked)
    && p.stack !in ps[2] && ps[3] == ps[2][p.stack := Blocks(STACK_SIZE)]
    && p.task !in ps[3] && ps[4] == ps[3][p.task := Blocks(TASK_STRUCT)]
    && SpaceBlocks(m, p.dir, p.chunk) !! ps[4].Keys && ps[5] == ps[4] + Ones(SpaceBlocks(m, p.dir, p.chunk))
    && p.records == EmptyRecords()
  }

  ghost function LayersOf(ps: seq<map<word, nat>>, m: Frames, p: Process, leaked: set<word>): Layers
    requires Paged(m, p.dir) && |ps| == 6
  {
    Layers(ps[0].Keys, ps[1].Keys, ps[1].Keys + leaked + Held(m, p, ElfKind),
           ps[2].Keys, ps[3].Keys, ps[4].Keys, ps[5].Keys)
  }

  lemma StepsMakeLayers(ps: seq<map<word, nat>>, m: Frames, p: Process, leaked: set<word>)
    requires Paged(m, p.dir) && LoadSteps(ps, m, p, leaked)
    ensures Layered(LayersOf(ps, m, p, leaked), m, p, leaked)
  {
    hide SpaceBlocks, Paged, EmptyRecords, Blocks, Ones, RecordPointers;
    NoRecordPointers(p.records);
    OnesKeys(ps[4], SpaceBlocks(m, p.dir, p.chunk));
  }

  lemma OnesKeys(pool: map<word, nat>, fs: set<word>)
    ensures (pool + Ones(fs)).Keys == pool.Keys + fs
  {
  }

  lemma NoRecordPointers(r: seq<Allocation>)
    requires r == EmptyRecords()
    ensures RecordPointers(r) == {}
  {
  }

  lemma StepsKeepPool(ps: seq<map<word, nat>>, m: Frames, p: Process, leaked: set<word>)
    requires Paged(m, p.dir) && LoadSteps(ps, m, p, leaked)
    ensures forall a :: a in ps[0] ==> a in ps[5] && ps[5][a] == ps[0][a]
  {
    hide SpaceBlocks, Paged, EmptyRecords, Blocks;
  }

  lemma StepsRightSizes(ps: seq<map<word, nat>>, m: Frames, p: Process, leaked: set<word>)
    requires Paged(m, p.dir) && LoadSteps(ps, m, p, leaked)
    ensures RightSizes(ps[5], m, p)
  {
    hide SpaceBlocks, Paged, EmptyRecords, Blocks;
    assert p.image.memory in ps[2] && p.self in ps[2] && ps[2][p.self] == ps[1][p.self];
  }

  lemma SpaceIsFresh(live: set<word>, m: Frames, n: Frames, d: word, chunk: word)
    requires FreshSpace(live, m, USER_FLAGS, n, d, chunk)
    ensures Paged(n, d) && chunk !in Footprint(n, d) && SpaceBlocks(n, d, chunk) !! live
  {
  }

  lemma FreshOfLess(live: set<word>, less: set<word>, m: Frames, n: Frames, d: word, chunk: word)
    requires FreshSpace(live, m, USER_FLAGS, n, d, chunk) && less <= live
    ensures FreshSpace(less, m, USER_FLAGS, n, d, chunk)
  {
  }

  /** A successful load, before mapping, adds exactly the new process's blocks and the leaked ones. */
  lemma AllocateProcessIsFresh(mem: Memory, program: Program)
    requires Sound(mem.table) && AllocateProcess(mem, program).Some?
    ensures var r := AllocateProcess(mem, program).value;
            && Sound(r.mem.table) && r.process.image.size == program.size && r.process.records == EmptyRecords()
            && FreshProcess(Pool(mem.table), Pool(r.mem.table), r.mem.frames, r.process, r.leaked)
            && FreshSpace(Pool(mem.table).Keys, mem.frames, USER_FLAGS, r.mem.frames, r.process.dir, r.process.chunk)
  {
    hide Sound, Pool, FreeCount, NewSpace, Allocate, LoadProgram, FreshImage, FreshSpace, SpaceBlocks, Ones, Layered,
      Blocks;
    var t1 := Allocate(mem.table, Blocks(PROCESS_STRUCT)).value.0;
    LoadProgramIsFresh(t1, program);
    var loaded := LoadProgram(t1, program).value;
    var t3 := Allocate(loaded.table, Blocks(STACK_SIZE)).value.0;
    var t4 := Allocate(t3, Blocks(TASK_STRUCT)).value.0;
    NewSpaceFacts(t4, mem.frames, USER_FLAGS);
    var r := AllocateProcess(mem, program).value;
    var ps := [Pool(mem.table), Pool(t1), Pool(loaded.table), Pool(t3), Pool(t4), Pool(r.mem.table)];
    SpaceIsFresh(Pool(t4).Keys, mem.frames, r.mem.frames, r.process.dir, r.process.chunk);
    StepsMakeLayers(ps, r.mem.frames, r.process, r.leaked);
    StepsRightSizes(ps, r.mem.frames, r.process, r.leaked);
    StepsKeepPool(ps, r.mem.frames, r.process, r.leaked);
    var ls := LayersOf(ps, r.mem.frames, r.process, r.leaked);
    LayersMakeFreshProcess(ls, ps[0], ps[5], r.mem.frames, r.process, r.leaked);
    LayersGrow(ls, r.mem.frames, r.process, r.leaked, 0, 5);
    FreshOfLess(Pool(t4).Keys, Pool(mem.table).Keys, mem.frames, r.mem.frames, r.process.dir, r.process.chunk);
  }
}
