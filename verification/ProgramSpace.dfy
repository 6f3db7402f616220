/** What a loaded program sees of its file and its stack, and at which addresses (src/task/process.c). */
module ProgramSpace {
  import opened Config
  import opened Words
  import opened HeapTable
  import opened Heap
  import opened KernelHeap
  import opened PageTables
  import opened AddressSpace
  import opened ProcessMemory
  import opened ProcessPages
  import opened KernelRun
  import opened KernelSystem
  import opened Isolation
  import opened Layout

  // ---------- one segment ----------

  /** The segment is mapped on page `q`: so far behind its first page that its bytes reach there. */
  ghost predicate Touches(h: Header, q: int) {
    Wrap(q * PAGE_SIZE - Mask(h.vaddr)) < h.offset % PAGE_SIZE + h.memsz
  }

  /**
   The entry that the segment then puts there: the matching page of the file's copy, for user mode to read
   or write.
   */
  function SegmentEntry(memory: int, h: Header, q: int): int {
    memory + (h.offset - h.offset % PAGE_SIZE) + Wrap(q * PAGE_SIZE - Mask(h.vaddr)) + if h.writable then 7 else 5
  }

  /** The header's part of the file lies in the copy, which lies in the heap. */
  ghost predicate Inside(memory: word, n: nat, h: Header) {
    && InHeap(memory) && memory + n * BLOCK_SIZE <= HEAP_ADDRESS + HEAP_BLOCKS * BLOCK_SIZE
    && 0 <= h.offset && h.offset + h.memsz <= n * BLOCK_SIZE
  }

  lemma SegmentRange(memory: word, n: nat, h: Header)
    requires Inside(memory, n, h)
    ensures var phys := Wrap(memory + h.offset);
            var first, end := Mask(phys), AlignAddress(Wrap(phys + h.memsz));
            && Mappable(Mask(h.vaddr), first, end) && first == memory + (h.offset - h.offset % PAGE_SIZE)
            && first + h.offset % PAGE_SIZE + h.memsz <= end < first + h.offset % PAGE_SIZE + h.memsz + PAGE_SIZE
  {
  }

  lemma TouchedPage(h: Header, q: int, first: int, end: int)
    requires 0 <= q < PAGES && 0 <= h.offset && Aligned(first) && Aligned(end)
    requires first + h.offset % PAGE_SIZE + h.memsz <= end < first + h.offset % PAGE_SIZE + h.memsz + PAGE_SIZE
    ensures var k := Ahead(Mask(h.vaddr) / PAGE_SIZE, q);
            && Wrap(q * PAGE_SIZE - Mask(h.vaddr)) == k * PAGE_SIZE
            && (first + k * PAGE_SIZE < end <==> Touches(h, q))
  {
    AheadInBytes(Mask(h.vaddr), q * PAGE_SIZE);
  }

  /** Mapping one segment, page by page. */
  lemma SegmentMapped(m: Frames, d: word, memory: word, n: nat, h: Header, q: int)
    requires Paged(m, d) && Inside(memory, n, h) && 0 <= q < PAGES
    ensures var phys, flags := Wrap(memory + h.offset), if h.writable then USER_WRITE_FLAGS else USER_FLAGS;
            var (u, res) := MapTo(m, d, Mask(h.vaddr), Mask(phys), AlignAddress(Wrap(phys + h.memsz)), flags);
            res == 0 && SpaceOf(u, d)[q] == if Touches(h, q) then SegmentEntry(memory, h, q) else SpaceOf(m, d)[q]
  {
    hide MapTo, SpaceOf, Paged, Touches, Ahead, AlignAddress, Mask;
    var phys, flags := Wrap(memory + h.offset), if h.writable then USER_WRITE_FLAGS else USER_FLAGS;
    var first, end := Mask(phys), AlignAddress(Wrap(phys + h.memsz));
    SegmentRange(memory, n, h);
    MapToIsPointwise(m, d, Mask(h.vaddr), first, end, flags, q);
    TouchedPage(h, q, first, end);
  }

  // ---------- all segments ----------

  ghost predicate Untouched(hs: seq<Header>, from: nat, q: int) {
    forall j :: from <= j < |hs| ==> !Touches(hs[j], q)
  }

  /** Segment `i` is the last one that is mapped on page `q`, the one that counts. */
  ghost predicate LastOn(hs: seq<Header>, i: nat, q: int) {
    i < |hs| && Touches(hs[i], q) && Untouched(hs, i + 1, q)
  }

  /** What the segments leave in page `q`, of which segment `i` is the last; none if `i` is -1. */
  function EntryAfter(memory: int, hs: seq<Header>, i: int, q: int, before: int): int
    requires -1 <= i < |hs|
  {
    if i < 0 then before else SegmentEntry(memory, hs[i], q)
  }

  ghost predicate LastOrNone(hs: seq<Header>, i: int, q: int) {
    if i == -1 then Untouched(hs, 0, q) else i >= 0 && LastOn(hs, i, q)
  }

  lemma NoSegments(m: Frames, d: word, memory: word)
    requires Paged(m, d)
    ensures MapHeaders(m, d, memory, []) == (m, 0)
  {
  }

  /** The first segment, and then the others. */
  lemma OneSegment(m: Frames, d: word, memory: word, n: nat, hs: seq<Header>, q: int) returns (v: Frames)
    requires Paged(m, d) && hs != [] && Inside(memory, n, hs[0]) && 0 <= q < PAGES
    ensures Paged(v, d) && MapHeaders(m, d, memory, hs) == MapHeaders(v, d, memory, hs[1..])
    ensures SpaceOf(v, d)[q] == if Touches(hs[0], q) then SegmentEntry(memory, hs[0], q) else SpaceOf(m, d)[q]
  {
    hide Paged, MapTo, SpaceOf, Touches, SegmentEntry, Inside, AlignAddress, Mask;
    var h := hs[0];
    var phys, flags := Wrap(memory + h.offset), if h.writable then USER_WRITE_FLAGS else USER_FLAGS;
    SegmentMapped(m, d, memory, n, h, q);
    v := MapTo(m, d, Mask(h.vaddr), Mask(phys), AlignAddress(Wrap(phys + h.memsz)), flags).0;
  }

  lemma {:induction false} SegmentsMapped(m: Frames, d: word, memory: word, n: nat, hs: seq<Header>, i: int, q: int)
    requires Paged(m, d) && 0 <= q < PAGES && forall h :: h in hs ==> Inside(memory, n, h)
    requires -1 <= i < |hs| && LastOrNone(hs, i, q)
    ensures var (u, res) := MapHeaders(m, d, memory, hs);
            res == 0 && SpaceOf(u, d)[q] == EntryAfter(memory, hs, i, q, SpaceOf(m, d)[q])
    decreases |hs|
  {
    hide Paged, MapHeaders, SpaceOf, Touches, SegmentEntry, Inside, LastOrNone, Untouched;
    if hs == [] {
      NoSegments(m, d, memory);
    } else {
      var v := OneSegment(m, d, memory, n, hs, q);
      FirstSegment(hs, i, q);
      SegmentsMapped(v, d, memory, n, hs[1..], if i <= 0 then -1 else i - 1, q);
    }
  }

  lemma FirstSegment(hs: seq<Header>, i: int, q: int)
    requires hs != [] && LastOrNone(hs, i, q)
    ensures -1 <= i < |hs| && (i >= 1 ==> hs[1..][i - 1] == hs[i])
    ensures LastOrNone(hs[1..], if i <= 0 then -1 else i - 1, q)
    ensures i == 0 ==> Touches(hs[0], q)
    ensures i == -1 ==> !Touches(hs[0], q)
  {
    hide Touches;
    LaterSegments(hs, if i <= 0 then 1 else i + 1, q);
  }

  lemma LaterSegments(hs: seq<Header>, from: nat, q: int)
    requires hs != [] && from > 0
    ensures Untouched(hs, from, q) <==> Untouched(hs[1..], from - 1, q)
  {
    hide Touches;
    if Untouched(hs[1..], from - 1, q) {
      forall j | from <= j < |hs|
        ensures !Touches(hs[j], q)
      {
        assert hs[j] == hs[1..][j - 1];
      }
    }
  }

  /** The addresses of a segment come out the wrong way round, past the end of the address space. */
  ghost predicate Unmappable(memory: word, h: Header) {
    var phys := Wrap(memory + h.offset);
    AlignAddress(Wrap(phys + h.memsz)) < Mask(phys)
  }

  /** Mapping fails at the first such segment; those before it stay mapped and none behind it is. */
  lemma {:induction false} MappingStops(m: Frames, d: word, memory: word, hs: seq<Header>, k: nat)
    requires Paged(m, d) && k < |hs| && Unmappable(memory, hs[k])
    requires forall j :: 0 <= j < k ==> !Unmappable(memory, hs[j])
    ensures MapHeaders(m, d, memory, hs[..k]).1 == 0
    ensures MapHeaders(m, d, memory, hs) == (MapHeaders(m, d, memory, hs[..k]).0, -EINVARG)
    decreases k
  {
    hide Paged, MapTo, SpaceOf, AlignAddress;
    var h := hs[0];
    var phys, flags := Wrap(memory + h.offset), if h.writable then USER_WRITE_FLAGS else USER_FLAGS;
    MapToIsPointwise(m, d, Mask(h.vaddr), Mask(phys), AlignAddress(Wrap(phys + h.memsz)), flags, 0);
    EndIsAligned(Wrap(phys + h.memsz));
    if k > 0 {
      var v := MapTo(m, d, Mask(h.vaddr), Mask(phys), AlignAddress(Wrap(phys + h.memsz)), flags).0;
      assert hs[1..][..k - 1] == hs[..k][1..];
      MappingStops(v, d, memory, hs[1..], k - 1);
    }
  }

  lemma EndIsAligned(a: word)
    ensures Aligned(AlignAddress(a))
  {
  }

  // ---------- flat binaries and the stack ----------

  lemma BinaryMapped(m: Frames, d: word, ptr: word, size: word, q: int)
    requires Paged(m, d) && InHeap(ptr) && 1 <= size <= 0xffff_e000 && 0 <= q < PAGES
    requires ptr + Blocks(size) * BLOCK_SIZE <= HEAP_ADDRESS + HEAP_BLOCKS * BLOCK_SIZE
    ensures SpaceOf(MapBinary(m, d, ptr, size), d)[q]
            == if 0x40_0000 <= q * PAGE_SIZE < 0x40_0000 + size then ptr + (q * PAGE_SIZE - 0x40_0000) + 7
               else SpaceOf(m, d)[q]
  {
    hide MapTo, SpaceOf, Paged, Ahead, AlignAddress, Blocks;
    EndOfBlocks(ptr, size);
    var end := AlignAddress(Wrap(ptr + size));
    MapToIsPointwise(m, d, PROGRAM_ADDRESS, ptr, end, USER_WRITE_FLAGS, q);
    FromPage(0x400, ptr, size, end, q);
  }

  /** The pages that are mapped from page `first` on are those that the bytes reach. */
  lemma FromPage(first: nat, ptr: word, size: word, end: word, q: int)
    requires Aligned(ptr) && Aligned(end) && end - PAGE_SIZE < ptr + size <= end && 0 <= q < PAGES
    requires first < PAGES && first * PAGE_SIZE + end - ptr <= WORD_LIMIT
    ensures var k := Ahead(first, q);
            && (ptr + k * PAGE_SIZE < end <==> first * PAGE_SIZE <= q * PAGE_SIZE < first * PAGE_SIZE + size)
            && (first <= q ==> k * PAGE_SIZE == q * PAGE_SIZE - first * PAGE_SIZE)
  {
  }

  /** The stack's four pages; one page is left free between them and the program. */
  predicate OnStack(q: int) {
    0x3F_B000 <= q * PAGE_SIZE < 0x3F_F000
  }

  lemma StackMapped(m: Frames, d: word, stack: word, q: int)
    requires Paged(m, d) && InHeap(stack) && 0 <= q < PAGES
    requires stack + 16384 <= HEAP_ADDRESS + HEAP_BLOCKS * BLOCK_SIZE
    ensures SpaceOf(MapStack(m, d, stack), d)[q]
            == if OnStack(q) then stack + (q * PAGE_SIZE - 0x3F_B000) + 7 else SpaceOf(m, d)[q]
  {
    hide MapTo, SpaceOf, Paged, Ahead;
    assert AlignAddress(Wrap(stack + STACK_SIZE)) == stack + 16384;
    MapToIsPointwise(m, d, STACK_END, stack, stack + 16384, USER_WRITE_FLAGS, q);
    FromPage(0x3FB, stack, 16384, stack + 16384, q);
  }

  // ---------- a new directory ----------

  /** User mode may write all that the directory's tables let it write. */
  ghost predicate DirectoryOpen(m: Frames, d: word) {
    d in m && |m[d]| == ENTRIES && forall i :: 0 <= i < ENTRIES ==> Writable(m[d][i])
  }

  lemma PagedHasDirectory(m: Frames, d: word)
    requires Paged(m, d)
    ensures d in m && |m[d]| == ENTRIES
  {
  }

  lemma SameDirectoryOpen(m: Frames, n: Frames, d: word)
    requires DirectoryOpen(m, d) && d in n && n[d] == m[d]
    ensures DirectoryOpen(n, d)
  {
  }

  lemma AllocatedOpen(mem: Memory, program: Program)
    requires Sound(mem.table) && AllocateProcess(mem, program).Some?
    ensures var a := AllocateProcess(mem, program).value; DirectoryOpen(a.mem.frames, a.process.dir)
  {
    hide Sound, Pool, AllocateProcess, FreshSpace, FreshProcess, Writable, Paged;
    AllocateProcessIsFresh(mem, program);
    var a := AllocateProcess(mem, program).value;
    PagedHasDirectory(a.mem.frames, a.process.dir);
    forall i | 0 <= i < ENTRIES
      ensures Writable(a.mem.frames[a.process.dir][i])
    {
      DirectoryEntryWritable(Pool(mem.table).Keys, mem.frames, a.mem.frames, a.process.dir, a.process.chunk, i);
    }
  }

  /** Before any mapping every page shows the frame of its own number, for user mode to read only. */
  lemma AllocatedPage(mem: Memory, program: Program, q: int)
    requires Sound(mem.table) && AllocateProcess(mem, program).Some? && 0 <= q < PAGES
    ensures var a := AllocateProcess(mem, program).value; SpaceOf(a.mem.frames, a.process.dir)[q] == q * PAGE_SIZE + 5
  {
    hide Sound, Pool, AllocateProcess, FreshSpace, FreshProcess, Paged, SpaceOf;
    AllocateProcessIsFresh(mem, program);
    var a := AllocateProcess(mem, program).value;
    NewSpaceIsIdentity(Pool(mem.table).Keys, mem.frames, USER_FLAGS, a.mem.frames, a.process.dir, a.process.chunk,
      q * PAGE_SIZE);
  }

  lemma LoadedKind(t: Table, program: Program)
    requires Sound(t) && LoadProgram(t, program).Some?
    ensures LoadProgram(t, program).value.image.ElfImage? <==> program.Elf?
  {
    hide Sound, Called, Allocate, Blocks;
  }

  lemma AllocatedKind(mem: Memory, program: Program)
    requires Sound(mem.table) && AllocateProcess(mem, program).Some?
    ensures AllocateProcess(mem, program).value.process.image.ElfImage? <==> program.Elf?
  {
    hide Sound, LoadProgram, Allocate, FreeCount, NewSpace, Blocks, EmptyRecords;
    LoadedKind(Allocate(mem.table, Blocks(PROCESS_STRUCT)).value.0, program);
  }

  lemma AllocatedImage(mem: Memory, program: Program)
    requires Sound(mem.table) && AllocateProcess(mem, program).Some? && program.size <= 0xffff_e000
    ensures var a := AllocateProcess(mem, program).value;
            && (a.process.image.ElfImage? <==> program.Elf?) && a.process.image.size == program.size
            && ImageInPool(Pool(a.mem.table), a.process.image, a.process.stack)
  {
    hide Sound, Pool, FreshProcess, FreshSpace, AllocateProcess, InHeap, Paged;
    AllocatedKind(mem, program);
    AllocateProcessIsFresh(mem, program);
    var a := AllocateProcess(mem, program).value;
    ImageIsInPool(Pool(mem.table), a.mem.table, a.mem.frames, a.process, a.leaked);
  }

  // ---------- the whole space of a loaded program ----------

  lemma LoadedOpen(sys: System, o: map<word, Owner>, slot: nat, program: Program)
    requires SystemInv(sys, o) && slot !in sys.state.procs && slot < MAX_PROCESSES
    requires Sound(sys.state.mem.table) && Load(sys.state.mem, program).Some? && HeadersInside(program)
    ensures var v := Started(sys, slot, program).state;
            slot in v.procs && DirectoryOpen(v.mem.frames, v.procs[slot].dir)
  {
    hide SystemInv, Sound, AllocateProcess, HeadersInside, Started, Paged, Agree, Footprint, Writable, MapMemory;
    var u, v := LoadStep(sys.state, slot, program), Started(sys, slot, program).state;
    AllocatedOpen(sys.state.mem, program);
    StartedWritesFrames(sys, o, slot, program);
    SpaceUnchanged(u.mem.frames, v.mem.frames, u.procs[slot].dir);
  }

  lemma OpenAfterLoad(sys: System, o: map<word, Owner>, slot: nat, program: Program)
    requires SystemInv(sys, o) && Usable(sys) && Allowed(sys, ProcessLoad(slot, program))
    ensures var v := Next(sys, ProcessLoad(slot, program)).state;
            slot in v.procs && DirectoryOpen(v.mem.frames, v.procs[slot].dir)
  {
    hide SystemInv, DirectoryOpen, Clean, Listed, Load, Started, Sound, AllPaged, Ready, HeadersInside;
    LoadedOpen(sys, o, slot, program);
  }

  /** A load has succeeded, and the new process's frames are those that `Next` leaves. */
  ghost predicate JustLoaded(sys: System, o: map<word, Owner>, slot: nat, program: Program, v: State) {
    && SystemInv(sys, o) && Usable(sys) && Allowed(sys, ProcessLoad(slot, program))
    && v == Next(sys, ProcessLoad(slot, program)).state
  }

  lemma LoadedFrames(mem: Memory, program: Program)
    requires Sound(mem.table) && Load(mem, program).Some?
    ensures AllocateProcess(mem, program).Some?
    ensures var a, l := AllocateProcess(mem, program).value, Load(mem, program).value;
            && l.process == a.process && Paged(a.mem.frames, a.process.dir)
            && var p := a.process;
               l.mem.frames == MapMemory(a.mem.frames, p.dir, p.image, HeadersOf(program), p.stack).0
  {
    hide Sound, AllocateProcess, Paged, MapMemory;
  }

  lemma ElfPage(mem: Memory, program: Program, i: int, q: int)
    requires Sound(mem.table) && Load(mem, program).Some? && HeadersInside(program) && program.Elf? && 0 <= q < PAGES
    requires -1 <= i < |program.headers| && LastOrNone(program.headers, i, q)
    ensures var l := Load(mem, program).value;
            && Paged(l.mem.frames, l.process.dir) && DirectoryOpen(l.mem.frames, l.process.dir)
            && SpaceOf(l.mem.frames, l.process.dir)[q]
               == if OnStack(q) then l.process.stack + (q * PAGE_SIZE - 0x3F_B000) + 7
                  else EntryAfter(l.process.image.memory, program.headers, i, q, q * PAGE_SIZE + 5)
  {
    hide Sound, Load, AllocateProcess, Paged, SpaceOf, DirectoryOpen, MapHeaders, MapStack, Pool, OnStack, LastOrNone,
      SegmentEntry, Blocks, InHeap;
    LoadedFrames(mem, program);
    var a := AllocateProcess(mem, program).value;
    var m, p := a.mem.frames, a.process;
    AllocatedOpen(mem, program);
    AllocatedPage(mem, program, q);
    AllocatedImage(mem, program);
    StructBlocks();
    SegmentsMapped(m, p.dir, p.image.memory, Blocks(program.size), program.headers, i, q);
    var n := MapHeaders(m, p.dir, p.image.memory, program.headers).0;
    StackMapped(n, p.dir, p.stack, q);
    PagedHasDirectory(MapStack(n, p.dir, p.stack), p.dir);
    SameDirectoryOpen(m, MapStack(n, p.dir, p.stack), p.dir);
  }

  lemma BinaryPage(mem: Memory, program: Program, q: int)
    requires Sound(mem.table) && Load(mem, program).Some? && HeadersInside(program) && program.Binary? && 0 <= q < PAGES
    ensures var l := Load(mem, program).value;
            && Paged(l.mem.frames, l.process.dir) && DirectoryOpen(l.mem.frames, l.process.dir)
            && SpaceOf(l.mem.frames, l.process.dir)[q]
               == if OnStack(q) then l.process.stack + (q * PAGE_SIZE - 0x3F_B000) + 7
                  else if 0x40_0000 <= q * PAGE_SIZE < 0x40_0000 + program.size
                  then l.process.image.memory + (q * PAGE_SIZE - 0x40_0000) + 7
                  else q * PAGE_SIZE + 5
  {
    hide Sound, Load, AllocateProcess, Paged, SpaceOf, DirectoryOpen, MapBinary, MapStack, Pool, OnStack, Blocks,
      InHeap;
    LoadedFrames(mem, program);
    var a := AllocateProcess(mem, program).value;
    var m, p := a.mem.frames, a.process;
    AllocatedOpen(mem, program);
    AllocatedPage(mem, program, q);
    AllocatedImage(mem, program);
    StructBlocks();
    BinaryMapped(m, p.dir, p.image.memory, program.size, q);
    var n := MapBinary(m, p.dir, p.image.memory, program.size);
    StackMapped(n, p.dir, p.stack, q);
    PagedHasDirectory(MapStack(n, p.dir, p.stack), p.dir);
    SameDirectoryOpen(m, MapStack(n, p.dir, p.stack), p.dir);
  }

  /** What the load leaves is what stays when the task is on the list. */
  lemma AfterLoad(sys: System, o: map<word, Owner>, slot: nat, program: Program, v: State)
    requires JustLoaded(sys, o, slot, program, v)
    ensures Sound(sys.state.mem.table) && Load(sys.state.mem, program).Some? && HeadersInside(program)
    ensures var l := Load(sys.state.mem, program).value;
            && slot in v.procs && v.procs[slot] == l.process
            && (Paged(l.mem.frames, l.process.dir) ==>
                  && Paged(v.mem.frames, l.process.dir) && v.mem.frames[l.process.dir] == l.mem.frames[l.process.dir]
                  && SpaceOf(v.mem.frames, l.process.dir) == SpaceOf(l.mem.frames, l.process.dir))
  {
    hide SystemInv, Sound, Load, HeadersInside, Started, Paged, SpaceOf, Agree, Footprint, Clean, Listed, AllPaged,
      Ready;
    StartedWritesFrames(sys, o, slot, program);
    var u := LoadStep(sys.state, slot, program);
    SpaceUnchanged(u.mem.frames, v.mem.frames, u.procs[slot].dir);
  }

  // ---------- what the program sees ----------

  /** Present and open to user mode. */
  predicate Readable(entry: word) {
    entry % 8 == 5 || entry % 8 == 7
  }

  /** At address `a` the process in slot `s` sees the byte at `phys`, which it may write or not. */
  ghost predicate Sees(st: State, s: nat, a: word, phys: int, writable: bool) {
    && s in st.procs && Paged(st.mem.frames, st.procs[s].dir)
    && var m, d, q := st.mem.frames, st.procs[s].dir, a / PAGE_SIZE;
       && Physical(m, d, a) == phys && Readable(m[d][q / ENTRIES]) && Readable(SpaceOf(m, d)[q])
       && (UserWritable(m, d, q) <==> writable)
  }

  lemma EntryIsSeen(st: State, s: nat, a: word, frame: int, writable: bool)
    requires s in st.procs && Paged(st.mem.frames, st.procs[s].dir)
    requires DirectoryOpen(st.mem.frames, st.procs[s].dir) && Aligned(frame)
    requires SpaceOf(st.mem.frames, st.procs[s].dir)[a / PAGE_SIZE] == frame + if writable then 7 else 5
    ensures Sees(st, s, a, frame + a % PAGE_SIZE, writable)
  {
    hide Paged, SpaceOf, Physical;
    PhysicalBySpace(st.mem.frames, st.procs[s].dir, a);
    FlagsOfEntry(frame, writable, SpaceOf(st.mem.frames, st.procs[s].dir)[a / PAGE_SIZE]);
  }

  lemma FlagsOfEntry(frame: int, writable: bool, entry: word)
    requires Aligned(frame) && entry == frame + if writable then 7 else 5
    ensures Mask(entry) == frame && Readable(entry) && (Writable(entry) <==> writable)
  {
  }

  /** The page of a segment's byte, and the frame behind it. */
  lemma SegmentByte(memory: int, h: Header, x: int)
    requires Aligned(memory) && 0 <= h.offset && 0 <= x < h.memsz && h.vaddr + x < WORD_LIMIT
    requires h.vaddr % PAGE_SIZE == h.offset % PAGE_SIZE || x == 0
    ensures var a := h.vaddr + x;
            var frame := SegmentEntry(memory, h, a / PAGE_SIZE) - if h.writable then 7 else 5;
            && Touches(h, a / PAGE_SIZE) && Aligned(frame)
            && frame + a % PAGE_SIZE == memory + h.offset + x + h.vaddr % PAGE_SIZE - h.offset % PAGE_SIZE
  {
    var a := h.vaddr + x;
    var ahead := a / PAGE_SIZE * PAGE_SIZE - Mask(h.vaddr);
    assert ahead == x + h.vaddr % PAGE_SIZE - a % PAGE_SIZE;
    assert Wrap(ahead) == ahead;
  }

  /** Byte `x` of segment `i` is not hidden: no later segment and no stack is mapped on its page. */
  ghost predicate Visible(hs: seq<Header>, i: nat, x: int)
    requires i < |hs|
  {
    && 0 <= x < hs[i].memsz && hs[i].vaddr + x < WORD_LIMIT
    && Untouched(hs, i + 1, (hs[i].vaddr + x) / PAGE_SIZE) && !OnStack((hs[i].vaddr + x) / PAGE_SIZE)
  }

  lemma SegmentPage(sys: System, o: map<word, Owner>, slot: nat, program: Program, v: State, i: nat, x: int)
    requires JustLoaded(sys, o, slot, program, v) && program.Elf? && i < |program.headers|
    requires Visible(program.headers, i, x)
    requires var h := program.headers[i]; h.vaddr % PAGE_SIZE == h.offset % PAGE_SIZE || x == 0
    ensures var h := program.headers[i];
            && slot in v.procs && Aligned(v.procs[slot].image.memory)
            && Sees(v, slot, h.vaddr + x,
                    v.procs[slot].image.memory + h.offset + x + h.vaddr % PAGE_SIZE - h.offset % PAGE_SIZE, h.writable)
  {
    hide SystemInv, Sound, Load, Started, Paged, SpaceOf, Clean, Listed, AllPaged, Ready, DirectoryOpen, Untouched,
      OnStack, SegmentEntry, Touches, Sees;
    var h, a := program.headers[i], program.headers[i].vaddr + x;
    AfterLoad(sys, o, slot, program, v);
    ImageAligned(sys.state.mem, program);
    SegmentByte(v.procs[slot].image.memory, h, x);
    ElfPage(sys.state.mem, program, i, a / PAGE_SIZE);
    var l := Load(sys.state.mem, program).value;
    PagedHasDirectory(v.mem.frames, l.process.dir);
    SameDirectoryOpen(l.mem.frames, v.mem.frames, l.process.dir);
    var frame := SegmentEntry(v.procs[slot].image.memory, h, a / PAGE_SIZE) - if h.writable then 7 else 5;
    EntryIsSeen(v, slot, a, frame, h.writable);
  }

  lemma ImageAligned(mem: Memory, program: Program)
    requires Sound(mem.table) && Load(mem, program).Some? && HeadersInside(program)
    ensures var p := Load(mem, program).value.process;
            && InHeap(p.image.memory) && InHeap(p.stack) && p.image.size == program.size >= 1
            && (forall h :: h in HeadersOf(program) ==> 0 <= h.offset)
  {
    hide Sound, Load, AllocateProcess, Paged, Pool;
    LoadedFrames(mem, program);
    AllocatedImage(mem, program);
  }

  /**
   After a load the program sees each of its segments at the addresses that it was linked for, writeable
   exactly if the header says so, wherever no later segment and no stack covers the page.
   */
  lemma SegmentSeen(sys: System, o: map<word, Owner>, slot: nat, program: Program, v: State, i: nat, x: int)
    requires JustLoaded(sys, o, slot, program, v) && program.Elf? && i < |program.headers|
    requires Visible(program.headers, i, x)
    requires program.headers[i].vaddr % PAGE_SIZE == program.headers[i].offset % PAGE_SIZE
    ensures var h := program.headers[i];
            slot in v.procs && Sees(v, slot, h.vaddr + x, v.procs[slot].image.memory + h.offset + x, h.writable)
  {
    hide JustLoaded, Sees, Visible;
    SegmentPage(sys, o, slot, program, v, i, x);
  }

  /**
   A segment whose address and file offset lie differently in their pages begins at the wrong byte, and no
   other does.
   */
  lemma SegmentSeenExactlyWhen(sys: System, o: map<word, Owner>, slot: nat, program: Program, v: State, i: nat)
    requires JustLoaded(sys, o, slot, program, v) && program.Elf? && i < |program.headers|
    requires Visible(program.headers, i, 0)
    ensures var h := program.headers[i];
            && slot in v.procs && Paged(v.mem.frames, v.procs[slot].dir)
            && (Physical(v.mem.frames, v.procs[slot].dir, h.vaddr) == v.procs[slot].image.memory + h.offset
                <==> h.vaddr % PAGE_SIZE == h.offset % PAGE_SIZE)
  {
    hide JustLoaded, Visible, Physical, Paged, UserWritable, SpaceOf;
    SegmentPage(sys, o, slot, program, v, i, 0);
  }

  /** Text to be read only at 0x400000, and data to be written two pages on, as the programs here are linked. */
  const TEXT_AND_DATA := Elf(0x4000,
    [Header(0x1000, 0x40_0000, 0x1800, false), Header(0x3000, 0x40_2000, 0x200, true)], NO_CALLS)

  lemma TextAndDataSeen(sys: System, o: map<word, Owner>, slot: nat, v: State)
    requires JustLoaded(sys, o, slot, TEXT_AND_DATA, v)
    ensures slot in v.procs
    ensures Sees(v, slot, 0x40_0000, v.procs[slot].image.memory + 0x1000, false)
    ensures Sees(v, slot, 0x40_17ff, v.procs[slot].image.memory + 0x27ff, false)
    ensures Sees(v, slot, 0x40_2000, v.procs[slot].image.memory + 0x3000, true)
  {
    hide JustLoaded, Sees;
    SegmentSeen(sys, o, slot, TEXT_AND_DATA, v, 0, 0);
    SegmentSeen(sys, o, slot, TEXT_AND_DATA, v, 0, 0x17ff);
    SegmentSeen(sys, o, slot, TEXT_AND_DATA, v, 1, 0);
  }

  /** A flat binary lies at 0x400000, all of it writeable. */
  lemma BinarySeen(sys: System, o: map<word, Owner>, slot: nat, program: Program, v: State, x: nat)
    requires JustLoaded(sys, o, slot, program, v) && program.Binary? && x < program.size && 0x40_0000 + x < WORD_LIMIT
    ensures slot in v.procs && Sees(v, slot, 0x40_0000 + x, v.procs[slot].image.memory + x, true)
  {
    hide SystemInv, Sound, Load, Started, Paged, SpaceOf, Clean, Listed, AllPaged, Ready, DirectoryOpen, Sees;
    var a := 0x40_0000 + x;
    AfterLoad(sys, o, slot, program, v);
    ImageAligned(sys.state.mem, program);
    BinaryPage(sys.state.mem, program, a / PAGE_SIZE);
    var l := Load(sys.state.mem, program).value;
    PagedHasDirectory(v.mem.frames, l.process.dir);
    SameDirectoryOpen(l.mem.frames, v.mem.frames, l.process.dir);
    var frame := v.procs[slot].image.memory + (a / PAGE_SIZE * PAGE_SIZE - 0x40_0000);
    EntryIsSeen(v, slot, a, frame, true);
  }

  /** The stack's 16 KB lie at 0x3fb000, writeable, whatever the program's headers say. */
  lemma StackSeen(sys: System, o: map<word, Owner>, slot: nat, program: Program, v: State, x: nat)
    requires JustLoaded(sys, o, slot, program, v) && x < 16384
    ensures slot in v.procs && Sees(v, slot, 0x3F_B000 + x, v.procs[slot].stack + x, true)
  {
    hide SystemInv, Sound, Load, Started, Paged, SpaceOf, Clean, Listed, AllPaged, Ready, DirectoryOpen, Sees,
      LastOrNone, SegmentEntry;
    var a: word := 0x3F_B000 + x;
    AfterLoad(sys, o, slot, program, v);
    ImageAligned(sys.state.mem, program);
    if program.Elf? {
      var i := SomeLast(program.headers, |program.headers|, a / PAGE_SIZE);
      ElfPage(sys.state.mem, program, i, a / PAGE_SIZE);
    } else {
      BinaryPage(sys.state.mem, program, a / PAGE_SIZE);
    }
    var l := Load(sys.state.mem, program).value;
    PagedHasDirectory(v.mem.frames, l.process.dir);
    SameDirectoryOpen(l.mem.frames, v.mem.frames, l.process.dir);
    var frame := v.procs[slot].stack + (a / PAGE_SIZE * PAGE_SIZE - 0x3F_B000);
    EntryIsSeen(v, slot, a, frame, true);
  }

  /** Everywhere else an address shows the byte of its own number, to be read only. */
  lemma ElsewhereSeen(sys: System, o: map<word, Owner>, slot: nat, program: Program, v: State, a: word)
    requires JustLoaded(sys, o, slot, program, v) && !OnStack(a / PAGE_SIZE)
    requires program.Elf? ==> Untouched(program.headers, 0, a / PAGE_SIZE)
    requires program.Binary? ==> !(0x40_0000 <= a / PAGE_SIZE * PAGE_SIZE < 0x40_0000 + program.size)
    ensures Sees(v, slot, a, a, false)
  {
    hide SystemInv, Sound, Load, Started, Paged, SpaceOf, Clean, Listed, AllPaged, Ready, DirectoryOpen, Sees,
      Untouched, OnStack, SegmentEntry;
    AfterLoad(sys, o, slot, program, v);
    ImageAligned(sys.state.mem, program);
    if program.Elf? {
      ElfPage(sys.state.mem, program, -1, a / PAGE_SIZE);
    } else {
      BinaryPage(sys.state.mem, program, a / PAGE_SIZE);
    }
    var l := Load(sys.state.mem, program).value;
    PagedHasDirectory(v.mem.frames, l.process.dir);
    SameDirectoryOpen(l.mem.frames, v.mem.frames, l.process.dir);
    EntryIsSeen(v, slot, a, a / PAGE_SIZE * PAGE_SIZE, false);
  }

  /** For any page there is a last segment on it, or none. */
  lemma {:induction false} SomeLast(hs: seq<Header>, from: nat, q: int) returns (i: int)
    requires from <= |hs| && Untouched(hs, from, q)
    ensures -1 <= i < |hs| && LastOrNone(hs, i, q)
    decreases from
  {
    hide Touches;
    if from == 0 {
      i := -1;
    } else if Touches(hs[from - 1], q) {
      i := from - 1;
    } else {
      i := SomeLast(hs, from - 1, q);
    }
  }
}
