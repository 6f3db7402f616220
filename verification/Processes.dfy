/** The process code itself (src/task/process.c), proved against ProcessMemory and KernelRun. */
module Processes {
  import opened Wrappers
  import opened Config
  import opened Words
  import opened HeapTable
  import opened Heap
  import opened KernelHeap
  import opened PageTables
  import opened AddressSpace
  import opened Paging
  import PM = ProcessMemory
  import opened KernelRun
  import opened KernelSystem
  import opened TaskList

  /** struct process: only the fields that memory management reads or writes. */
  class Process {
    const self: word
    const id: nat
    var allocations: seq<PM.Allocation>
    var image: PM.Image
    var stack: word
    var task: word
    var directory: word
    var chunk: word

    constructor (self: word, id: nat)
      ensures this.self == self && this.id == id && allocations == PM.EmptyRecords()
    {
      this.self := self;
      this.id := id;
      allocations := PM.EmptyRecords();
      image := PM.BinaryImage(0, 0);
      stack, task, directory, chunk := 0, 0, 0, 0;
    }

    ghost function Value(): PM.Process
      reads this
    {
      PM.Process(self, image, stack, task, directory, chunk, allocations)
    }

    /** process_find_free_allocation_index */
    method FindFreeAllocationIndex() returns (res: int)
      ensures res == if PM.IndexOf(allocations, 0, 0) < 0 then -ENOMEM else PM.IndexOf(allocations, 0, 0)
    {
      var i := 0;
      while i < |allocations|
        invariant i <= |allocations| && PM.IndexOf(allocations, 0, 0) == PM.IndexOf(allocations, 0, i)
      {
        if allocations[i].ptr == 0 {
          return i;
        }
        i := i + 1;
      }
      res := -ENOMEM;
    }

    /** process_get_allocation_by_address, as an index or -1 for null. */
    method GetAllocationByAddress(addr: word) returns (res: int)
      ensures res == PM.IndexOf(allocations, addr, 0)
    {
      var i := 0;
      while i < |allocations|
        invariant i <= |allocations| && PM.IndexOf(allocations, addr, 0) == PM.IndexOf(allocations, addr, i)
      {
        if allocations[i].ptr == addr {
          return i;
        }
        i := i + 1;
      }
      res := -1;
    }

    /** process_allocation_unjoin */
    method AllocationUnjoin(ptr: word)
      modifies this`allocations
      ensures allocations == PM.Unjoin(old(allocations), ptr)
    {
      var i := 0;
      while i < |allocations|
        invariant i <= |allocations| == |old(allocations)|
        invariant forall k :: 0 <= k < i ==> allocations[k] == PM.Unjoin(old(allocations), ptr)[k]
        invariant forall k :: i <= k < |allocations| ==> allocations[k] == old(allocations[k])
      {
        if allocations[i].ptr == ptr {
          allocations := allocations[i := PM.Allocation(0, 0)];
        }
        i := i + 1;
      }
    }
  }

  ghost function MemoryOf(memory: PageMemory): PM.Memory
    reads memory, memory.heap.entries
  {
    PM.Memory(memory.heap.Table(), memory.frames)
  }

  /** process_malloc */
  method ProcessMalloc(memory: PageMemory, process: Process, size: word) returns (ptr: word)
    requires memory.Valid() && Paged(memory.frames, process.directory)
    requires Blocks(size) >= 1 && !Overruns(memory.heap.Table(), Blocks(size))
    modifies memory, memory.heap.entries, process`allocations
    ensures PM.MallocResult(MemoryOf(memory), process.allocations, ptr)
         == PM.Malloc(old(MemoryOf(memory)), process.directory, old(process.allocations), size)
  {
    hide Paged, Overruns, MapTo;
    ptr := memory.heap.Malloc(size);
    if ptr == 0 {
      return 0;
    }
    var index := process.FindFreeAllocationIndex();
    if index < 0 {
      return 0;
    }
    var res := memory.MapTo(process.directory, ptr, ptr, AlignAddress(Wrap(ptr + size)), PM.USER_WRITE_FLAGS);
    if res < 0 {
      return 0;
    }
    process.allocations := process.allocations[index := PM.Allocation(ptr, size)];
  }

  /** process_free of a non-null pointer */
  method ProcessFree(memory: PageMemory, process: Process, ptr: word)
    requires memory.Valid() && Paged(memory.frames, process.directory)
    requires PM.RecordsInHeap(process.allocations) && ptr != 0
    modifies memory, memory.heap.entries, process`allocations
    ensures (MemoryOf(memory), process.allocations)
         == PM.Free(old(MemoryOf(memory)), process.directory, old(process.allocations), ptr)
  {
    hide Paged, MapTo, AddressToBlock, InHeap;
    var index := process.GetAllocationByAddress(ptr);
    if index < 0 {
      return;
    }
    var size := process.allocations[index].size;
    var res := memory.MapTo(process.directory, ptr, ptr, AlignAddress(Wrap(ptr + size)), 0);
    if res < 0 {
      return;
    }
    process.AllocationUnjoin(ptr);
    HeapAddressToBlock(ptr);
    memory.heap.Free(ptr);
  }

  /** process_terminate_allocations over the records that are in use */
  method TerminateAllocations(memory: PageMemory, process: Process)
    requires memory.Valid() && Paged(memory.frames, process.directory) && PM.RecordsInHeap(process.allocations)
    modifies memory, memory.heap.entries, process`allocations
    ensures (MemoryOf(memory), process.allocations)
         == PM.FreeRecords(old(MemoryOf(memory)), process.directory, old(process.allocations), 0)
  {
    hide Paged, PM.RecordsInHeap, PM.Free;
    var i := 0;
    while i < |process.allocations|
      invariant i <= |process.allocations|
      invariant Paged(memory.frames, process.directory) && PM.RecordsInHeap(process.allocations)
      invariant PM.FreeRecords(old(MemoryOf(memory)), process.directory, old(process.allocations), 0)
             == PM.FreeRecords(MemoryOf(memory), process.directory, process.allocations, i)
    {
      if process.allocations[i].ptr != 0 {
        ProcessFree(memory, process, process.allocations[i].ptr);
      }
      i := i + 1;
    }
  }

  /** process_map_elf */
  method MapElf(memory: PageMemory, process: Process, elfMemory: word, headers: seq<PM.Header>) returns (res: int)
    requires memory.Valid() && Paged(memory.frames, process.directory)
    modifies memory
    ensures (memory.frames, res) == PM.MapHeaders(old(memory.frames), process.directory, elfMemory, headers)
  {
    hide Paged, MapTo;
    res := 0;
    var i := 0;
    while i < |headers|
      invariant i <= |headers| && res == 0 && Paged(memory.frames, process.directory)
      invariant PM.MapHeaders(old(memory.frames), process.directory, elfMemory, headers)
             == PM.MapHeaders(memory.frames, process.directory, elfMemory, headers[i..])
    {
      var header := headers[i];
      var phys := Wrap(elfMemory + header.offset);
      var flags: Flags := PM.USER_FLAGS;
      if header.writable {
        flags := PM.USER_WRITE_FLAGS;
      }
      assert headers[i..][1..] == headers[i + 1..];
      res := memory.MapTo(process.directory, Mask(header.vaddr), Mask(phys), AlignAddress(Wrap(phys + header.memsz)),
        flags);
      if res < 0 {
        break;
      }
      i := i + 1;
    }
  }

  /** process_map_memory, with process_map_binary inlined */
  method MapMemory(memory: PageMemory, process: Process, headers: seq<PM.Header>) returns (res: int)
    requires memory.Valid() && Paged(memory.frames, process.directory)
    modifies memory
    ensures (memory.frames, res)
            == PM.MapMemory(old(memory.frames), process.directory, process.image, headers, process.stack)
  {
    hide Paged, MapTo, PM.MapHeaders;
    res := 0;
    match process.image {
      case ElfImage(_, elfMemory, _) =>
        res := MapElf(memory, process, elfMemory, headers);
      case BinaryImage(ptr, size) =>
        var ignored := memory.MapTo(process.directory, PM.PROGRAM_ADDRESS, ptr, AlignAddress(Wrap(ptr + size)),
          PM.USER_WRITE_FLAGS);
    }
    if res < 0 {
      return;
    }
    var stackEnd := AlignAddress(Wrap(process.stack + PM.STACK_SIZE));
    var ignored := memory.MapTo(process.directory, PM.STACK_END, process.stack, stackEnd, PM.USER_WRITE_FLAGS);
  }

  /** kzalloc of a request that is known to fit. */
  method KzallocFitting(memory: PageMemory, size: word) returns (p: word)
    requires memory.Valid() && Sound(memory.heap.Table()) && PM.Allocate(memory.heap.Table(), Blocks(size)).Some?
    modifies memory.heap.entries
    ensures PM.Allocate(old(memory.heap.Table()), Blocks(size)) == Some((memory.heap.Table(), p))
    ensures Sound(memory.heap.Table())
  {
    p := memory.heap.Malloc(size);
  }

  /** The file system's calls while the file is opened or closed; `own` are the blocks that it has. */
  method FileCalls(memory: PageMemory, calls: seq<PM.Call>, own: seq<word>) returns (left: seq<word>)
    requires memory.Valid() && Sound(memory.heap.Table()) && PM.Called(memory.heap.Table(), calls, own).Some?
    modifies memory.heap.entries
    ensures Sound(memory.heap.Table())
    ensures PM.Called(old(memory.heap.Table()), calls, own) == Some((memory.heap.Table(), left))
  {
    hide Sound, Pool, Blocks, PM.Allocate, Kfree, AddressToBlock;
    left := own;
    var i := 0;
    while i < |calls|
      invariant i <= |calls| && Sound(memory.heap.Table())
      invariant PM.Called(old(memory.heap.Table()), calls, own) == PM.Called(memory.heap.Table(), calls[i..], left)
    {
      assert calls[i..][0] == calls[i] && calls[i..][1..] == calls[i + 1..];
      match calls[i] {
        case Take(size) =>
          var p := KzallocFitting(memory, size);
          left := left + [p];
        case GiveBack(k) =>
          KfreeRemoves(memory.heap.Table(), left[k]);
          SpansAreInHeap(memory.heap.Table(), left[k]);
          FreeBlock(memory, left[k]);
          left := PM.Less(left, k);
      }
      i := i + 1;
    }
    assert calls[i..] == [];
  }

  /** process_load_data, with elf_load */
  method LoadData(memory: PageMemory, process: Process, program: PM.Program) returns (ghost leaked: set<word>)
    requires memory.Valid() && Sound(memory.heap.Table()) && PM.LoadProgram(memory.heap.Table(), program).Some?
    modifies memory.heap.entries, process`image
    ensures process.allocations == old(process.allocations)
    ensures PM.LoadProgram(old(memory.heap.Table()), program)
         == Some(PM.LoadedProgram(memory.heap.Table(), process.image, leaked))
    ensures Sound(memory.heap.Table())
  {
    hide Sound, Pool, Blocks, PM.Allocate, PM.Called, PM.Members;
    var file := KzallocFitting(memory, PM.ELF_STRUCT);
    var left := FileCalls(memory, program.calls.opening, []);
    var contents := KzallocFitting(memory, program.size);
    left := FileCalls(memory, program.calls.closing, left);
    match program {
      case Elf(size, _, _) =>
        process.image := PM.ElfImage(file, contents, size);
        leaked := PM.Members(left);
      case Binary(size, calls) =>
        var ptr := KzallocFitting(memory, size);
        left := FileCalls(memory, calls.again, left);
        process.image := PM.BinaryImage(ptr, size);
        leaked := PM.Members(left) + {file, contents};
    }
  }

  /** task_new and task_init, as far as memory goes. */
  method TaskNew(memory: PageMemory, process: Process)
    requires memory.Valid() && Sound(memory.heap.Table())
    requires PM.Allocate(memory.heap.Table(), Blocks(PM.TASK_STRUCT)).Some?
    requires FreeCount(PM.Allocate(memory.heap.Table(), Blocks(PM.TASK_STRUCT)).value.0) >= SPACE_BLOCKS
    modifies memory, memory.heap.entries, process`task, process`directory, process`chunk
    ensures process.allocations == old(process.allocations) && process.image == old(process.image)
    ensures process.stack == old(process.stack)
    ensures var (t, p) := PM.Allocate(old(memory.heap.Table()), Blocks(PM.TASK_STRUCT)).value;
            && process.task == p
            && NewSpace(t, old(memory.frames), PM.USER_FLAGS)
            == Built(memory.heap.Table(), memory.frames, process.directory, process.chunk)
  {
    hide Sound, Pool, PM.Allocate, FreeCount, NewSpace;
    process.task := KzallocFitting(memory, PM.TASK_STRUCT);
    process.directory, process.chunk := memory.New4gb(PM.USER_FLAGS);
  }

  /** The first half of process_load_for_slot: the struct and the program. */
  method StartProcess(memory: PageMemory, slot: nat, program: PM.Program)
      returns (process: Process, ghost t1: Table, ghost leaked: set<word>)
    requires memory.Valid() && Sound(memory.heap.Table())
    requires PM.Allocate(memory.heap.Table(), Blocks(PM.PROCESS_STRUCT)).Some?
    requires PM.LoadProgram(PM.Allocate(memory.heap.Table(), Blocks(PM.PROCESS_STRUCT)).value.0, program).Some?
    modifies memory.heap.entries
    ensures fresh(process) && process.id == slot && process.allocations == PM.EmptyRecords()
    ensures PM.Allocate(old(memory.heap.Table()), Blocks(PM.PROCESS_STRUCT)) == Some((t1, process.self))
    ensures Sound(t1) && Sound(memory.heap.Table())
    ensures PM.LoadProgram(t1, program) == Some(PM.LoadedProgram(memory.heap.Table(), process.image, leaked))
  {
    hide Sound, Pool, Blocks, PM.Allocate, PM.LoadProgram, PM.EmptyRecords;
    var self := KzallocFitting(memory, PM.PROCESS_STRUCT);
    t1 := memory.heap.Table();
    process := new Process(self, slot);
    leaked := LoadData(memory, process, program);
  }

  /** process_load_for_slot up to the mapping. */
  method PrepareProcess(memory: PageMemory, slot: nat, program: PM.Program)
    returns (process: Process, ghost leaked: set<word>)
    requires memory.Valid() && Sound(memory.heap.Table()) && PM.AllocateProcess(MemoryOf(memory), program).Some?
    modifies memory, memory.heap.entries
    ensures fresh(process) && process.id == slot
    ensures PM.AllocateProcess(old(MemoryOf(memory)), program)
            == Some(PM.Loaded(MemoryOf(memory), process.Value(), leaked))
  {
    hide Sound, Pool, PM.Allocate, FreeCount, NewSpace, PM.LoadProgram, PM.EmptyRecords, Paged, PM.AllocateProcess;
    ghost var mem, t1 := MemoryOf(memory), memory.heap.Table();
    FitsInSteps(mem, program);
    process, t1, leaked := StartProcess(memory, slot, program);
    ghost var loaded := PM.LoadedProgram(memory.heap.Table(), process.image, leaked);
    process.stack := KzallocFitting(memory, PM.STACK_SIZE);
    ghost var t3 := memory.heap.Table();
    ghost var t4 := PM.Allocate(t3, Blocks(PM.TASK_STRUCT)).value.0;
    TaskNew(memory, process);
    PM.AllocateProcessInSteps(mem, program, t1, loaded, t3, t4, PM.Loaded(MemoryOf(memory), process.Value(), leaked));
  }

  /** When the whole allocation succeeds, so does each of its steps. */
  lemma FitsInSteps(mem: PM.Memory, program: PM.Program)
    requires Sound(mem.table) && PM.AllocateProcess(mem, program).Some?
    ensures PM.Allocate(mem.table, Blocks(PM.PROCESS_STRUCT)).Some?
    ensures var t1 := PM.Allocate(mem.table, Blocks(PM.PROCESS_STRUCT)).value.0;
            PM.LoadProgram(t1, program).Some? &&
            var t2 := PM.LoadProgram(t1, program).value.table;
            PM.Allocate(t2, Blocks(PM.STACK_SIZE)).Some? &&
            var t3 := PM.Allocate(t2, Blocks(PM.STACK_SIZE)).value.0;
            PM.Allocate(t3, Blocks(PM.TASK_STRUCT)).Some? &&
            FreeCount(PM.Allocate(t3, Blocks(PM.TASK_STRUCT)).value.0) >= SPACE_BLOCKS
  {
    hide Sound, Pool, PM.Allocate, FreeCount, NewSpace, PM.LoadProgram, PM.EmptyRecords;
  }

  /** process_load_for_slot, when it succeeds. */
  method LoadForSlot(memory: PageMemory, slot: nat, program: PM.Program)
    returns (process: Process, ghost leaked: set<word>)
    requires memory.Valid() && Sound(memory.heap.Table()) && PM.Load(MemoryOf(memory), program).Some?
    modifies memory, memory.heap.entries
    ensures fresh(process) && process.id == slot
    ensures PM.Load(old(MemoryOf(memory)), program) == Some(PM.Loaded(MemoryOf(memory), process.Value(), leaked))
  {
    hide Sound, Pool, PM.AllocateProcess, PM.MapMemory, Paged;
    process, leaked := PrepareProcess(memory, slot, program);
    var res := MapMemory(memory, process, PM.HeadersOf(program));
  }

  /** process_free_program_data */
  method FreeProgramData(memory: PageMemory, process: Process)
    requires memory.Valid() && InHeap(process.image.memory) && (process.image.ElfImage? ==> InHeap(process.image.file))
    modifies memory.heap.entries
    ensures memory.heap.Table() == PM.FreeProgram(old(memory.heap.Table()), process.image)
  {
    hide InHeap, AddressToBlock;
    HeapAddressToBlock(process.image.memory);
    match process.image {
      case BinaryImage(ptr, _) =>
        memory.heap.Free(ptr);
      case ElfImage(file, contents, _) =>
        HeapAddressToBlock(file);
        memory.heap.Free(contents);
        memory.heap.Free(file);
    }
  }

  /** The processes of the table are where their ids say. */
  ghost predicate InPlace(processes: seq<Process?>) {
    forall s: nat :: s < |processes| && processes[s] != null ==> processes[s].id == s
  }

  /** `block->next = value`: changes a table if the block is one, and a process's records if they lie there */
  method StoreNext(memory: PageMemory, processes: seq<Process?>, block: word, value: word)
    requires InPlace(processes)
    modifies memory`frames, (set p: Process | p in processes)`allocations
    ensures memory.frames == Stored(old(memory.frames), block, value)
    ensures forall s: nat :: s < |processes| && processes[s] != null ==>
              processes[s].Value() == Overwritten(old(processes[s].Value()), block, value)
  {
    if block != NULL && block in memory.frames && |memory.frames[block]| == ENTRIES {
      var entries: seq<word> := memory.frames[block][NEXT_WORD := value];
      memory.frames := memory.frames[block := entries];
    }
    var s := 0;
    while s < |processes|
      invariant s <= |processes|
      invariant memory.frames == Stored(old(memory.frames), block, value)
      invariant forall r: nat :: r < |processes| && processes[r] != null ==>
                  processes[r].Value()
                  == if r < s then Overwritten(old(processes[r].Value()), block, value) else old(processes[r].Value())
    {
      if processes[s] != null {
        StoreRecord(processes[s], block, value);
      }
      s := s + 1;
    }
  }

  method StoreRecord(process: Process, block: word, value: word)
    modifies process`allocations
    ensures process.Value() == Overwritten(old(process.Value()), block, value)
  {
    var i := RecordHit(process.self, block);
    if 0 <= i < |process.allocations| {
      process.allocations := process.allocations[i := PM.Allocation(process.allocations[i].ptr, value)];
    }
  }

  /** task_free: the space, the list, and the task struct */
  method TaskFree(memory: PageMemory, scheduler: Scheduler, processes: seq<Process?>, process: Process)
    requires memory.Valid() && TablesInHeap(memory.frames, process.directory) && InPlace(processes)
    requires InHeap(process.directory) && InHeap(process.chunk) && InHeap(process.task)
    requires process.task in scheduler.next && process.task in scheduler.prev
    modifies memory, memory.heap.entries, scheduler, (set p: Process | p in processes)`allocations
    ensures scheduler.Value() == Removed(old(scheduler.Value()), process.task)
    ensures scheduler.tasks == old(scheduler.tasks)
    ensures memory.frames == Stored(old(memory.frames), old(scheduler.prev[process.task]),
            old(scheduler.next[process.task]))
    ensures forall s: nat :: s < |processes| && processes[s] != null ==>
              processes[s].Value()
              == Overwritten(old(processes[s].Value()), old(scheduler.prev[process.task]),
                old(scheduler.next[process.task]))
    ensures AddressToBlock(HEAP_ADDRESS, process.task) >= 0
    ensures memory.heap.Table()
         == Kfree(FreeSpace(old(memory.heap.Table()), old(memory.frames), process.directory, process.chunk),
           process.task)
  {
    hide InHeap, AddressToBlock, TablesInHeap, FreeSpace, Kfree, Stored, Removed, Overwritten;
    memory.Free4gb(process.directory, process.chunk);
    StoreNext(memory, processes, scheduler.prev[process.task], scheduler.next[process.task]);
    scheduler.Unlink(process.task);
    FreeBlock(memory, process.task);
  }

  /** process_terminate up to unlinking the process. */
  method TerminateProcess(memory: PageMemory, scheduler: Scheduler, processes: seq<Process?>, process: Process)
    requires memory.Valid() && PM.Ready(memory.frames, process.Value()) && InPlace(processes)
    requires process.id < |processes| && processes[process.id] == process
    requires process.task in scheduler.next && process.task in scheduler.prev
    modifies memory, memory.heap.entries, scheduler, (set p: Process | p in processes)`allocations
    ensures scheduler.Value() == Removed(old(scheduler.Value()), process.task)
    ensures scheduler.tasks == old(scheduler.tasks)
    ensures var mem := PM.Terminate(old(MemoryOf(memory)), old(process.Value()));
            MemoryOf(memory)
            == mem.(frames := Stored(mem.frames, old(scheduler.prev[process.task]), old(scheduler.next[process.task])))
    ensures forall s: nat :: s < |processes| && processes[s] != null && s != process.id ==>
              processes[s].Value()
              == Overwritten(old(processes[s].Value()), old(scheduler.prev[process.task]),
                old(scheduler.next[process.task]))
  {
    hide InHeap, AddressToBlock, TablesInHeap, Paged, PM.RecordsInHeap, PM.FreeRecords, PM.FreeProgram, FreeSpace,
      Kfree, Stored, Removed, Overwritten;
    ghost var m := memory.frames;
    ReadyPaged(memory.frames, process.Value());
    TerminateAllocations(memory, process);
    PM.SameTablesInHeap(m, memory.frames, process.directory);
    FreeProgramData(memory, process);
    HeapAddressToBlock(process.stack);
    FreeBlock(memory, process.stack);
    TaskFree(memory, scheduler, processes, process);
  }

  lemma ReadyPaged(m: Frames, p: PM.Process)
    requires PM.Ready(m, p)
    ensures Paged(m, p.dir)
  {
    hide Paged;
  }

  /** kfree of a block of the kernel heap */
  method FreeBlock(memory: PageMemory, p: word)
    requires memory.Valid() && InHeap(p)
    modifies memory.heap.entries
    ensures AddressToBlock(HEAP_ADDRESS, p) >= 0 && memory.heap.Table() == Kfree(old(memory.heap.Table()), p)
  {
    HeapAddressToBlock(p);
    memory.heap.Free(p);
  }

  /** The process table, with the memory and the task list that the processes share. */
  class Kernel {
    const memory: PageMemory
    const scheduler: Scheduler
    const processes: array<Process?>
    /** Blocks that belong to no process. */
    ghost var held: set<word>

    /** An empty process table. */
    constructor (memory: PageMemory)
      requires memory.Valid()
      ensures this.memory == memory && Valid() && Procs() == map[] && held == {}
      ensures scheduler.Value() == NO_LINKS && scheduler.tasks == []
    {
      this.memory := memory;
      scheduler := new Scheduler();
      processes := new Process?[MAX_PROCESSES](_ => null);
      held := {};
    }

    ghost function Objects(): set<object>
      reads processes
    {
      set p: Process | p in processes[..]
    }

    /** Every process sits in the slot that its id names, so no process sits in two. */
    ghost predicate Valid()
      reads processes, Objects()
    {
      memory.Valid() && processes.Length == MAX_PROCESSES && InPlace(processes[..])
    }

    ghost function Procs(): map<nat, PM.Process>
      reads processes, Objects()
    {
      map s: nat | s < processes.Length && processes[s] != null :: processes[s].Value()
    }

    ghost function State(): KernelRun.State
      reads this, memory, memory.heap.entries, processes, Objects()
    {
      KernelRun.State(MemoryOf(memory), Procs(), held)
    }

    ghost function System(): System
      reads this, memory, memory.heap.entries, processes, Objects(), scheduler
    {
      KernelSystem.System(State(), scheduler.Value(), scheduler.tasks)
    }

    /** process_get_free_slot; with no free slot it returns the positive EISTKN. */
    method GetFreeSlot() returns (slot: nat)
      requires Valid()
      ensures if exists s :: 0 <= s < MAX_PROCESSES && processes[s] == null
              then slot < MAX_PROCESSES && processes[slot] == null && forall s :: 0 <= s < slot ==> processes[s] != null
              else slot == EISTKN && processes[slot] != null
    {
      var i := 0;
      while i < MAX_PROCESSES
        invariant i <= MAX_PROCESSES && forall s :: 0 <= s < i ==> processes[s] != null
      {
        if processes[i] == null {
          return i;
        }
        i := i + 1;
      }
      slot := EISTKN;
    }

    /** process_malloc, as a step of the whole kernel */
    method Malloc(process: Process, size: word) returns (ptr: word)
      requires Valid() && process.id < MAX_PROCESSES && processes[process.id] == process
      requires Paged(memory.frames, process.directory) && Requestable(memory.heap.Table(), size)
      modifies this, memory, memory.heap.entries, process`allocations
      ensures Valid() && State() == MallocStep(old(State()), process.id, size)
    {
      hide Paged, Overruns, PM.Malloc, Kmalloc, KmallocAddress;
      ghost var block := KmallocAddress(memory.heap.Table(), Blocks(size));
      ptr := ProcessMalloc(memory, process, size);
      if ptr == 0 {
        held := if block != 0 then held + {block} else held;
      }
      assert Procs() == old(Procs())[process.id := process.Value()];
    }

    /** process_free of a non-null pointer, as a step of the whole kernel */
    method Free(process: Process, ptr: word)
      requires Valid() && process.id < MAX_PROCESSES && processes[process.id] == process
      requires Paged(memory.frames, process.directory) && PM.RecordsInHeap(process.allocations) && ptr != 0
      modifies memory, memory.heap.entries, process`allocations
      ensures Valid() && State() == FreeStep(old(State()), process.id, ptr)
    {
      hide Paged, PM.Free, PM.RecordsInHeap;
      ProcessFree(memory, process, ptr);
      assert Procs() == old(Procs())[process.id := process.Value()];
    }

    /** `block->next = value`, as a change of the whole kernel's state */
    method StoreWord(block: word, value: word)
      requires Valid()
      modifies memory`frames, (set p: Process | p in processes[..])`allocations
      ensures Valid() && State() == WithStored(old(State()), block, value)
    {
      hide Stored, Overwritten;
      StoreNext(memory, processes[..], block, value);
      assert Procs() == WithStored(old(State()), block, value).procs;
    }

    /** The list's part of task_new */
    method ListTask(task: word)
      requires Valid()
      modifies memory`frames, scheduler, (set p: Process | p in processes[..])`allocations
      ensures Valid() && scheduler.Value() == TaskList.Added(old(scheduler.Value()), task)
      ensures scheduler.tasks == old(scheduler.tasks) + [task]
      ensures State() == if old(scheduler.head) == NULL then old(State())
              else WithStored(old(State()), old(scheduler.tail), task)
    {
      hide WithStored, TaskList.Added;
      if scheduler.head != NULL {
        StoreWord(scheduler.tail, task);
      }
      Append(task);
    }

    /** The list itself, whose fields lie outside memory */
    method Append(task: word)
      modifies scheduler
      ensures scheduler.Value() == TaskList.Added(old(scheduler.Value()), task)
      ensures scheduler.tasks == old(scheduler.tasks) + [task] && State() == old(State())
    {
      hide TaskList.Added;
      scheduler.Link(task);
      scheduler.tasks := scheduler.tasks + [task];
    }

    /** process_load_for_slot into a free slot, when it succeeds, but for the list's part of task_new. */
    method LoadProcess(slot: nat, program: PM.Program) returns (process: Process)
      requires Valid() && slot < MAX_PROCESSES && processes[slot] == null
      requires Sound(memory.heap.Table()) && PM.Load(MemoryOf(memory), program).Some?
      modifies this, memory, memory.heap.entries, processes
      ensures Valid() && fresh(process) && processes[..] == old(processes[..])[slot := process]
      ensures State() == LoadStep(old(State()), slot, program)
    {
      hide Sound, Pool, PM.Load;
      ghost var leaked;
      process, leaked := LoadForSlot(memory, slot, program);
      processes[slot] := process;
      held := held + leaked;
      assert Procs() == old(Procs())[slot := process.Value()];
    }

    /** All of it; the list's part comes after the mapping, which writes other blocks. */
    method Load(slot: nat, program: PM.Program) returns (process: Process)
      requires Valid() && slot < MAX_PROCESSES && processes[slot] == null
      requires Sound(memory.heap.Table()) && PM.Load(MemoryOf(memory), program).Some?
      modifies this, memory, memory.heap.entries, processes, scheduler,
        (set p: Process | p in processes[..])`allocations
      ensures Valid() && fresh(process) && processes[slot] == process
      ensures System() == Started(old(System()), slot, program)
    {
      hide Sound, Pool, PM.Load, WithStored, TaskList.Added, LoadStep;
      process := LoadProcess(slot, program);
      assert process.Value() == Procs()[slot];
      assert forall p: Process :: p in processes[..] && p != process ==> p in old(processes[..]);
      ListTask(process.task);
    }

    /** process_terminate up to unlinking the process, seen on the whole table */
    method EndProcess(process: Process)
      requires Valid() && process.id < MAX_PROCESSES && processes[process.id] == process
      requires PM.Ready(memory.frames, process.Value()) && Listed(System(), process.id)
      modifies memory, memory.heap.entries, scheduler, (set p: Process | p in processes[..])`allocations
      ensures Valid() && scheduler.tasks == old(scheduler.tasks)
      ensures AlmostEnded(old(System()), process.id, State(), scheduler.Value())
    {
      hide PM.Ready, PM.Terminate, Stored, Removed, Overwritten;
      TerminateProcess(memory, scheduler, processes[..], process);
      assert Procs().Keys == old(Procs()).Keys;
    }

    /** process_unlink, as far as the table goes; the struct stays allocated */
    method Forget(process: Process)
      requires Valid() && process.id < MAX_PROCESSES && processes[process.id] == process
      modifies this, processes
      ensures Valid()
      ensures State() == KernelRun.State(old(MemoryOf(memory)), old(Procs()) - {process.id}, old(held) + {process.self})
    {
      processes[process.id] := null;
      held := held + {process.self};
      assert Procs() == old(Procs()) - {process.id};
    }

    /** The order of the tasks on the list, which is no part of memory, without `task`. */
    ghost method Unlist(task: word)
      requires task in scheduler.tasks
      modifies scheduler`tasks
      ensures scheduler.tasks == Without(old(scheduler.tasks), Position(old(scheduler.tasks), task))
      ensures State() == old(State()) && scheduler.Value() == old(scheduler.Value())
    {
      scheduler.tasks := Without(scheduler.tasks, Position(scheduler.tasks, task));
    }

    /** process_terminate */
    method Terminate(process: Process)
      requires Valid() && process.id < MAX_PROCESSES && processes[process.id] == process
      requires PM.Ready(memory.frames, process.Value()) && Listed(System(), process.id)
      modifies this, memory, memory.heap.entries, processes, scheduler,
        (set p: Process | p in processes[..])`allocations
      ensures Valid() && System() == Ended(old(System()), process.id)
    {
      hide PM.Ready, Listed, Ended, Position, Without, AlmostEnded;
      ghost var sys := System();
      TaskIsListed(sys, process.id);
      EndProcess(process);
      ghost var st, links := State(), scheduler.Value();
      AlmostEndedIsEnded(sys, process.id, st, links);
      Forget(process);
      Unlist(process.task);
    }
  }

  lemma TaskIsListed(sys: System, slot: nat)
    requires Listed(sys, slot)
    ensures slot in sys.state.procs && sys.state.procs[slot].task in sys.tasks
  {
  }
}
