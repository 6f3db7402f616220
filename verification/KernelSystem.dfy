/**
 The kernel's memory together with its task list. The list's links lie inside task structs, and
 unlinking a task writes one of them through a pointer that may be stale: the block it names can by
 then be a page directory, a page table or a part of a process struct (src/task/task.c, src/task/process.c).
 */
module KernelSystem {
  import opened Words
  import opened KernelHeap
  import opened PageTables
  import opened AddressSpace
  import opened ProcessMemory
  import opened KernelRun
  import opened TaskList

  // Where `next` lies in struct task: behind the page directory, twelve registers and the process.
  const NEXT_OFFSET := 56
  const NEXT_WORD := NEXT_OFFSET / 4

  // Where the allocation records lie in struct process, and the size in each of them.
  const RECORDS_OFFSET := 116
  const RECORD_BYTES := 8
  const SIZE_OFFSET := 4

  /** `block->next = value` as it affects tables, if the block is one. */
  function Stored(m: Frames, block: word, value: word): (n: Frames)
    ensures n.Keys == m.Keys
  {
    if block == NULL || block !in m || |m[block]| != ENTRIES then m
    else
      var entries: seq<word> := m[block][NEXT_WORD := value];
      m[block := entries]
  }

  /** The record whose size field lies at `block->next` when the process struct lies at `self`, or -1. */
  function RecordHit(self: word, block: word): (i: int)
    ensures -1 <= i < MAX_ALLOCATIONS
  {
    var at := block + NEXT_OFFSET - self - RECORDS_OFFSET;
    if 0 <= at < MAX_ALLOCATIONS * RECORD_BYTES && at % RECORD_BYTES == SIZE_OFFSET then at / RECORD_BYTES else -1
  }

  /**
   Two of the struct's three blocks have a record's size there, the first one a part of the file name; no
   pointer is ever hit.
   */
  lemma RecordHitIs(self: word, block: word)
    requires Aligned(self) && Aligned(block)
    ensures RecordHit(self, block) == if block == self + PAGE_SIZE then 504
            else if block == self + 2 * PAGE_SIZE then 1016 else -1
    ensures (block + NEXT_OFFSET - self - RECORDS_OFFSET) % RECORD_BYTES == SIZE_OFFSET
  {
    var k := PagesApart(self, block);
    PlaceInRecord(k);
  }

  lemma PagesApart(self: word, block: word) returns (k: int)
    requires Aligned(self) && Aligned(block)
    ensures block - self == k * PAGE_SIZE
  {
    k := block / PAGE_SIZE - self / PAGE_SIZE;
  }

  lemma PlaceInRecord(k: int)
    ensures (k * PAGE_SIZE + NEXT_OFFSET - RECORDS_OFFSET) % RECORD_BYTES == SIZE_OFFSET
  {
    assert k * PAGE_SIZE + NEXT_OFFSET - RECORDS_OFFSET == RECORD_BYTES * (512 * k - 8) + SIZE_OFFSET;
  }

  /** `block->next = value` as it affects process `p`'s records. */
  function Overwritten(p: Process, block: word, value: word): (q: Process)
    ensures q == p.(records := q.records) && |q.records| == |p.records|
  {
    var i := RecordHit(p.self, block);
    if 0 <= i < |p.records| then p.(records := p.records[i := Allocation(p.records[i].ptr, value)]) else p
  }

  /** Memory, the links of the task list, and the tasks that are on it in creation order. */
  datatype System = System(state: State, links: Links, tasks: seq<word>)

  ghost function WithFrames(st: State, m: Frames): State {
    st.(mem := st.mem.(frames := m))
  }

  /** `block->next = value` on all that the state has. */
  ghost function WithStored(st: State, block: word, value: word): State {
    State(st.mem.(frames := Stored(st.mem.frames, block, value)),
          map s | s in st.procs :: Overwritten(st.procs[s], block, value),
          st.kernel)
  }

  ghost function TaskStructs(st: State): set<word> {
    set s | s in st.procs :: st.procs[s].task
  }

  ghost predicate SystemInv(sys: System, o: map<word, Owner>) {
    && Inv(sys.state, o) && Proper(sys.links, sys.tasks)
    && forall t :: t in sys.tasks <==> t in TaskStructs(sys.state)
  }

  // ---------- writing outside the live spaces ----------

  /** Frames that belong to no live space may be written at will. */
  lemma WriteElsewhereKeepsInv(st: State, o: map<word, Owner>, m: Frames)
    requires Inv(st, o)
    requires forall s :: s in st.procs ==> Agree(st.mem.frames, m, Footprint(st.mem.frames, st.procs[s].dir))
    ensures Inv(WithFrames(st, m), o)
  {
    hide Sound, Pool, Paged, Held, Footprint, ProcessOk, Agree;
    var u := WithFrames(st, m);
    forall s | s in u.procs
      ensures ProcessOk(Pool(u.mem.table), m, u.procs[s]) && Paged(m, u.procs[s].dir)
    {
      OtherProcess(st, o, s, Pool(st.mem.table), m);
      ProcessPaged(Pool(st.mem.table), m, u.procs[s]);
    }
    forall w, a: word
      ensures a in HeldBy(u, w) <==> a in o && o[a] == w
    {
      OwnersOf(st, o, w, a);
      if w.Of? && w.slot in st.procs {
        OtherProcess(st, o, w.slot, Pool(st.mem.table), m);
      }
    }
    OwnsIntro(u, o);
  }

  /** A write through `block` leaves a space alone exactly when it misses its frames or stores what is there. */
  lemma StoredAgreesExactlyWhen(m: Frames, d: word, block: word, value: word)
    requires Paged(m, d) && NULL !in Footprint(m, d)
    ensures Agree(m, Stored(m, block, value), Footprint(m, d))
       <==> (block in Footprint(m, d) ==> m[block][NEXT_WORD] == value)
  {
    if block in Footprint(m, d) {
      assert |m[block]| == ENTRIES;
      assert m[block][NEXT_WORD] == value ==> m[block][NEXT_WORD := value] == m[block];
      assert Stored(m, block, value)[block][NEXT_WORD] == value;
    }
  }

  /** A process's records stay as they are exactly when the write misses them or stores what is there. */
  ghost predicate RecordsMissed(p: Process, block: word, value: word) {
    var i := RecordHit(p.self, block);
    0 <= i < |p.records| ==> p.records[i].size == value
  }

  lemma OverwrittenSameExactlyWhen(p: Process, block: word, value: word)
    ensures Overwritten(p, block, value) == p <==> RecordsMissed(p, block, value)
  {
    hide RecordHit;
    var i := RecordHit(p.self, block);
    if 0 <= i < |p.records| {
      assert Overwritten(p, block, value).records[i] == Allocation(p.records[i].ptr, value);
      if p.records[i].size == value {
        assert p.records[i := p.records[i]] == p.records;
      }
    }
  }

  /** When no record is hit, the write changes frames only. */
  lemma StoredInFramesOnly(st: State, block: word, value: word)
    requires forall s :: s in st.procs ==> Overwritten(st.procs[s], block, value) == st.procs[s]
    ensures WithStored(st, block, value) == WithFrames(st, Stored(st.mem.frames, block, value))
  {
    hide Overwritten, Stored;
    assert WithStored(st, block, value).procs == st.procs;
  }

  /** Into a directory, the write makes the processor take the stored address for a page table. */
  lemma StoredInDirectory(m: Frames, d: word, value: word)
    requires Paged(m, d) && d != NULL && Aligned(value)
    ensures d in Stored(m, d, value) && |Stored(m, d, value)[d]| == ENTRIES
    ensures TableAt(Stored(m, d, value), d, NEXT_WORD) == value
  {
  }

  // ---------- who holds the task structs ----------

  lemma TaskOwner(sys: System, o: map<word, Owner>, t: word) returns (s: nat)
    requires SystemInv(sys, o) && t in sys.tasks
    ensures s in sys.state.procs && sys.state.procs[s].task == t
    ensures t in o && o[t] == Of(s, TaskKind) && t in Pool(sys.state.mem.table)
  {
    hide Proper, Inv, Held, Pool;
    s :| s in sys.state.procs && sys.state.procs[s].task == t;
    InvAllPaged(sys.state, o);
    TaskIsHeld(sys.state.mem.frames, sys.state.procs[s]);
    HeldIsOwned(sys.state, o, s, TaskKind, t);
  }

  lemma InvAllPaged(st: State, o: map<word, Owner>)
    requires Inv(st, o)
    ensures AllPaged(st)
  {
    hide Sound, Pool, Paged, ProcessOk, Owns;
  }

  lemma TaskIsHeld(m: Frames, p: Process)
    requires Paged(m, p.dir)
    ensures p.task in Held(m, p, TaskKind)
  {
    hide Paged;
  }

  /** A live task struct is no table of a live space. */
  lemma TaskIsNoTable(st: State, o: map<word, Owner>, t: word, r: nat, s: nat)
    requires Inv(st, o) && t in o && o[t] == Of(r, TaskKind) && s in st.procs
    ensures Paged(st.mem.frames, st.procs[s].dir) && t !in Footprint(st.mem.frames, st.procs[s].dir)
  {
    hide Sound, Pool, Paged, Footprint, ProcessOk, Owns;
    InvPaged(st, o, s);
    if t in Footprint(st.mem.frames, st.procs[s].dir) {
      FootprintOwner(st, o, s, t);
    }
  }

  lemma NullIsNoTable(st: State, o: map<word, Owner>, s: nat)
    requires Inv(st, o) && s in st.procs
    ensures Paged(st.mem.frames, st.procs[s].dir) && NULL !in Footprint(st.mem.frames, st.procs[s].dir)
  {
    hide Sound, Pool, Paged, Footprint, ProcessOk, Owns, Inv;
    InvPaged(st, o, s);
    if NULL in Footprint(st.mem.frames, st.procs[s].dir) {
      FootprintOwner(st, o, s, NULL);
      FootprintIsLive(st, o, NULL);
    }
  }

  lemma FootprintIsLive(st: State, o: map<word, Owner>, a: word)
    requires Inv(st, o) && a in o
    ensures InHeap(a) && a != NULL
  {
    hide Sound, Paged, Footprint, ProcessOk, Pool, Held;
    assert a in Pool(st.mem.table);
    SpansAreInHeap(st.mem.table, a);
  }

  // ---------- loading ----------

  /** process_load_for_slot when it succeeds; the write through the list's tail is part of task_new. */
  ghost function Started(sys: System, slot: nat, program: Program): System
    requires Sound(sys.state.mem.table) && Load(sys.state.mem, program).Some?
  {
    var st := LoadStep(sys.state, slot, program);
    var t := st.procs[slot].task;
    System(if sys.links.head == NULL then st else WithStored(st, sys.links.tail, t),
           TaskList.Added(sys.links, t), sys.tasks + [t])
  }

  lemma NewTaskIsNew(sys: System, o: map<word, Owner>, slot: nat, program: Program)
    requires SystemInv(sys, o) && slot !in sys.state.procs
    requires Sound(sys.state.mem.table) && Load(sys.state.mem, program).Some? && HeadersInside(program)
    ensures var t := LoadStep(sys.state, slot, program).procs[slot].task;
            t !in sys.tasks && t !in Pool(sys.state.mem.table)
  {
    hide Sound, Pool, Load, HeadersInside, Proper, Inv;
    LoadIsFresh(sys.state, program);
    var loaded := Load(sys.state.mem, program).value;
    TaskIsFresh(Pool(sys.state.mem.table), loaded);
    if loaded.process.task in sys.tasks {
      var s := TaskOwner(sys, o, loaded.process.task);
    }
  }

  lemma TaskIsFresh(pool: map<word, nat>, loaded: Loaded)
    requires Paged(loaded.mem.frames, loaded.process.dir)
    requires FreshProcess(pool, Pool(loaded.mem.table), loaded.mem.frames, loaded.process, loaded.leaked)
    ensures loaded.process.task !in pool
  {
    hide Pool, Paged, RightSizes, Footprint, SpaceBlocks;
    assert loaded.process.task in Held(loaded.mem.frames, loaded.process, TaskKind);
  }

  lemma TaskStructsAfterLoad(sys: System, slot: nat, program: Program, t: word)
    requires slot !in sys.state.procs && Sound(sys.state.mem.table) && Load(sys.state.mem, program).Some?
    ensures var u := LoadStep(sys.state, slot, program);
            t in TaskStructs(u) <==> t in TaskStructs(sys.state) || t == u.procs[slot].task
  {
    hide Sound, Load;
    var u := LoadStep(sys.state, slot, program);
    if t in TaskStructs(sys.state) {
      var s :| s in sys.state.procs && sys.state.procs[s].task == t;
      assert s in u.procs && u.procs[s].task == t;
    }
    assert slot in u.procs;
  }

  /** The write through the tail goes to a live task, so that loading keeps memory and list in order. */
  lemma LoadKeepsSystemInv(sys: System, o: map<word, Owner>, slot: nat, program: Program)
    requires SystemInv(sys, o) && slot !in sys.state.procs && slot < MAX_PROCESSES
    requires Sound(sys.state.mem.table) && Load(sys.state.mem, program).Some? && HeadersInside(program)
    ensures exists o' :: SystemInv(Started(sys, slot, program), o')
  {
    hide Sound, Pool, Load, HeadersInside, Proper, Inv, LoadStep, TaskStructs, WithStored, TaskList.Added;
    var u := LoadStep(sys.state, slot, program);
    LoadedSlot(sys.state, slot, program);
    LoadKeepsInv(sys.state, o, slot, program);
    var o' :| Inv(u, o');
    var t := u.procs[slot].task;
    NewTaskIsNew(sys, o, slot, program);
    LoadedTaskOwner(u, o', slot);
    AddedIsProper(sys.links, sys.tasks, t);
    if sys.links.head != NULL {
      TailWriteKeepsInv(sys, o, u, o', slot, program);
    }
    forall x: word
      ensures x in sys.tasks + [t] <==> x in TaskStructs(Started(sys, slot, program).state)
    {
      TaskStructsAfterLoad(sys, slot, program, x);
      SameTaskStructs(u, Started(sys, slot, program).state);
    }
    assert SystemInv(Started(sys, slot, program), o');
  }

  lemma LoadedSlot(st: State, slot: nat, program: Program)
    requires Sound(st.mem.table) && Load(st.mem, program).Some?
    ensures slot in LoadStep(st, slot, program).procs
  {
    hide Sound, Load;
  }

  lemma SameTaskStructs(st: State, u: State)
    requires u.procs == st.procs
    ensures TaskStructs(u) == TaskStructs(st)
  {
  }

  lemma LoadedTaskOwner(st: State, o: map<word, Owner>, s: nat)
    requires Inv(st, o) && s in st.procs
    ensures st.procs[s].task in o && o[st.procs[s].task] == Of(s, TaskKind) && st.procs[s].task != NULL
  {
    hide Inv, Held, Pool, Paged;
    InvPaged(st, o, s);
    TaskIsHeld(st.mem.frames, st.procs[s]);
    HeldIsOwned(st, o, s, TaskKind, st.procs[s].task);
    FootprintIsLive(st, o, st.procs[s].task);
  }

  /** A live block other than a process struct lies in no process struct. */
  lemma OutsideStructs(st: State, o: map<word, Owner>, block: word, s: nat)
    requires Inv(st, o) && s in st.procs && block in o && o[block] != Of(s, StructKind)
    ensures RecordHit(st.procs[s].self, block) == -1
  {
    hide Pool, Paged, Held, Footprint, Owns, ProcessOk, RecordHit, Sound;
    InvOwnsFixtures(st, o, s);
    InvSizes(st, o, s);
    var self := st.procs[s].self;
    FootprintIsLive(st, o, block);
    FootprintIsLive(st, o, self);
    RecordHitIs(self, block);
    StructBlocks();
    if RecordHit(self, block) != -1 {
      LiveBlock(st, o, block);
      SpansAreDisjoint(st.mem.table, self, block, block);
    }
  }

  lemma LiveBlock(st: State, o: map<word, Owner>, block: word)
    requires Inv(st, o) && block in o
    ensures Spans(Pool(st.mem.table), block, block)
  {
    hide Sound, Paged, Footprint, ProcessOk, Pool, Held;
    assert block in Pool(st.mem.table);
    SpansAreInHeap(st.mem.table, block);
  }

  lemma TailWriteMisses(sys: System, o: map<word, Owner>, u: State, o': map<word, Owner>, slot: nat, program: Program,
                        s: nat)
    requires SystemInv(sys, o) && slot !in sys.state.procs && sys.links.head != NULL
    requires Sound(sys.state.mem.table) && Load(sys.state.mem, program).Some?
    requires u == LoadStep(sys.state, slot, program) && Inv(u, o') && slot in u.procs && s in u.procs
    ensures Paged(u.mem.frames, u.procs[s].dir)
    ensures Agree(u.mem.frames, Stored(u.mem.frames, sys.links.tail, u.procs[slot].task),
            Footprint(u.mem.frames, u.procs[s].dir))
    ensures Overwritten(u.procs[s], sys.links.tail, u.procs[slot].task) == u.procs[s]
  {
    hide Sound, Pool, Load, Inv, TaskStructs, Stored, Agree, Footprint, Paged, RecordHit;
    var tail := sys.links.tail;
    TailIsTask(sys.links, sys.tasks);
    var r := TaskOwner(sys, o, tail);
    assert r in u.procs && u.procs[r].task == tail;
    LoadedTaskOwner(u, o', r);
    TaskIsNoTable(u, o', tail, r, s);
    NullIsNoTable(u, o', s);
    StoredAgreesExactlyWhen(u.mem.frames, u.procs[s].dir, tail, u.procs[slot].task);
    OutsideStructs(u, o', tail, s);
  }

  /** The write through the tail changes nothing that memory's invariant is about. */
  lemma TailWriteKeepsInv(sys: System, o: map<word, Owner>, u: State, o': map<word, Owner>, slot: nat, program: Program)
    requires SystemInv(sys, o) && slot !in sys.state.procs && sys.links.head != NULL
    requires Sound(sys.state.mem.table) && Load(sys.state.mem, program).Some?
    requires u == LoadStep(sys.state, slot, program) && Inv(u, o') && slot in u.procs
    ensures Inv(WithStored(u, sys.links.tail, u.procs[slot].task), o')
    ensures WithStored(u, sys.links.tail, u.procs[slot].task).procs == u.procs
  {
    hide SystemInv, Sound, Load, Inv, Stored, Agree, Footprint, Paged, Overwritten, WithStored;
    forall s | s in u.procs
      ensures Paged(u.mem.frames, u.procs[s].dir)
      ensures Agree(u.mem.frames, Stored(u.mem.frames, sys.links.tail, u.procs[slot].task),
              Footprint(u.mem.frames, u.procs[s].dir))
      ensures Overwritten(u.procs[s], sys.links.tail, u.procs[slot].task) == u.procs[s]
    {
      TailWriteMisses(sys, o, u, o', slot, program, s);
    }
    StoredInFramesOnly(u, sys.links.tail, u.procs[slot].task);
    WriteElsewhereKeepsInv(u, o', Stored(u.mem.frames, sys.links.tail, u.procs[slot].task));
  }

  /** Of what a load leaves, the write through the tail changes frames at most, and none of a live space's. */
  lemma StartedWritesFrames(sys: System, o: map<word, Owner>, slot: nat, program: Program)
    requires SystemInv(sys, o) && slot !in sys.state.procs && slot < MAX_PROCESSES
    requires Sound(sys.state.mem.table) && Load(sys.state.mem, program).Some? && HeadersInside(program)
    ensures var u, v := LoadStep(sys.state, slot, program), Started(sys, slot, program).state;
            && v == WithFrames(u, v.mem.frames) && slot in u.procs && Paged(u.mem.frames, u.procs[slot].dir)
            && Agree(u.mem.frames, v.mem.frames, Footprint(u.mem.frames, u.procs[slot].dir))
  {
    hide Sound, Pool, Load, HeadersInside, Proper, Inv, TaskStructs, Stored, TaskList.Added, Paged, Agree, Footprint;
    hide Overwritten, LoadStep;
    var u := LoadStep(sys.state, slot, program);
    LoadedSlot(sys.state, slot, program);
    LoadKeepsInv(sys.state, o, slot, program);
    var o' :| Inv(u, o');
    InvPaged(u, o', slot);
    SelfAgrees(u.mem.frames, u.procs[slot].dir);
    if sys.links.head != NULL {
      TailWriteMisses(sys, o, u, o', slot, program, slot);
      TailWriteKeepsInv(sys, o, u, o', slot, program);
    }
  }

  /** What the processes held before a load, they hold after it. */
  lemma StartedKeepsHeld(sys: System, o: map<word, Owner>, slot: nat, program: Program, s: nat, k: Kind)
    requires SystemInv(sys, o) && slot !in sys.state.procs && slot < MAX_PROCESSES && s in sys.state.procs
    requires Sound(sys.state.mem.table) && Load(sys.state.mem, program).Some? && HeadersInside(program)
    ensures Paged(sys.state.mem.frames, sys.state.procs[s].dir)
    ensures Paged(Started(sys, slot, program).state.mem.frames, sys.state.procs[s].dir)
    ensures Held(Started(sys, slot, program).state.mem.frames, sys.state.procs[s], k)
            == Held(sys.state.mem.frames, sys.state.procs[s], k)
  {
    hide Sound, Pool, Load, HeadersInside, Proper, Inv, TaskStructs, Stored, TaskList.Added, LoadFacts, Paged, Agree,
      Footprint, Held;
    var u, p := LoadStep(sys.state, slot, program), sys.state.procs[s];
    InvPaged(sys.state, o, s);
    LoadIsFresh(sys.state, program);
    LoadKeepsInv(sys.state, o, slot, program);
    var o' :| Inv(u, o');
    LoadKeepsOthers(sys.state, o, Load(sys.state.mem, program).value, s);
    if sys.links.head != NULL {
      TailWriteMisses(sys, o, u, o', slot, program, s);
      HeldUnchanged(u.mem.frames, Started(sys, slot, program).state.mem.frames, p, k);
    }
  }

  lemma HeldUnchanged(m: Frames, n: Frames, p: Process, k: Kind)
    requires Paged(m, p.dir) && Agree(m, n, Footprint(m, p.dir))
    ensures Paged(n, p.dir) && Held(n, p, k) == Held(m, p, k)
  {
    SpaceUnchanged(m, n, p.dir);
    hide Paged, Footprint, Agree;
  }

  lemma TailIsTask(l: Links, ts: seq<word>)
    requires Proper(l, ts) && l.head != NULL
    ensures l.tail in ts
  {
  }

  // ---------- termination ----------

  /** What task_free relies on: the task is on the list, and its fields can be read. */
  ghost predicate Listed(sys: System, slot: nat) {
    && slot in sys.state.procs && sys.state.procs[slot].task in sys.tasks
    && sys.state.procs[slot].task in sys.links.next && sys.state.procs[slot].task in sys.links.prev
  }

  /**
   process_terminate with all of task_free: the task leaves the list, and `prev->next` is written wherever
   it lies.
   */
  ghost function Ended(sys: System, slot: nat): System
    requires Listed(sys, slot) && Ready(sys.state.mem.frames, sys.state.procs[slot])
  {
    var t := sys.state.procs[slot].task;
    System(WithStored(TerminateStep(sys.state, slot), sys.links.prev[t], sys.links.next[t]),
           Removed(sys.links, t), Without(sys.tasks, Position(sys.tasks, t)))
  }

  /** Every other process is as it was, its page directory and tables byte for byte and its records too. */
  ghost predicate OthersUntouched(sys: System, slot: nat, v: State)
    requires AllPaged(sys.state)
  {
    forall s :: s in sys.state.procs && s != slot ==>
      && s in v.procs && v.procs[s] == sys.state.procs[s]
      && Agree(sys.state.mem.frames, v.mem.frames, Footprint(sys.state.mem.frames, sys.state.procs[s].dir))
  }

  /** A write of `value` to `block->next` misses the process's tables and records, or finds there what it stores. */
  ghost predicate WriteMisses(m: Frames, p: Process, block: word, value: word)
    requires Paged(m, p.dir)
  {
    && (block in Footprint(m, p.dir) ==> block in m && |m[block]| == ENTRIES && m[block][NEXT_WORD] == value)
    && RecordsMissed(p, block, value)
  }

  /**
   A process can be terminated cleanly: its task's back link names the task before it or, if the task is
   the first, a block that holds no live task, no table of another process's and none of its records.
   */
  ghost predicate Clean(sys: System, slot: nat)
    requires Listed(sys, slot) && AllPaged(sys.state)
  {
    var t := sys.state.procs[slot].task;
    && Removable(sys.tasks, Position(sys.tasks, t), sys.links.prev[t])
    && forall s :: s in sys.state.procs && s != slot ==>
         WriteMisses(sys.state.mem.frames, sys.state.procs[s], sys.links.prev[t], sys.links.next[t])
  }

  lemma InvListed(sys: System, o: map<word, Owner>, slot: nat)
    requires SystemInv(sys, o) && slot in sys.state.procs
    ensures Listed(sys, slot) && AllPaged(sys.state) && Ready(sys.state.mem.frames, sys.state.procs[slot])
  {
    InvMeansReady(sys.state, o, slot);
    InvAllPaged(sys.state, o);
    hide Inv, Proper, Ready, Paged;
    var t := sys.state.procs[slot].task;
    assert t in TaskStructs(sys.state);
    ProperLinks(sys.links, sys.tasks, Position(sys.tasks, t));
  }

  /** The first task on the list may always go if it has no back link. */
  lemma NoBackLinkIsClean(sys: System, o: map<word, Owner>, slot: nat)
    requires SystemInv(sys, o) && Listed(sys, slot) && AllPaged(sys.state)
    requires Position(sys.tasks, sys.state.procs[slot].task) == 0 && sys.links.prev[sys.state.procs[slot].task] == NULL
    ensures Clean(sys, slot)
  {
    hide Inv, Proper, TaskStructs, Paged, Footprint, RecordHit;
    ProperIsDistinct(sys.links, sys.tasks);
    forall s | s in sys.state.procs
      ensures NULL !in Footprint(sys.state.mem.frames, sys.state.procs[s].dir)
      ensures RecordHit(sys.state.procs[s].self, NULL) == -1
    {
      NullIsNoTable(sys.state, o, s);
      NullHitsNothing(sys.state.procs[s].self);
    }
  }

  lemma NullHitsNothing(self: word)
    ensures RecordHit(self, NULL) == -1
  {
  }

  /** A space's frames come out of an ending as they were exactly when the write misses them or stores what is there. */
  lemma SpaceMissedExactlyWhen(sys: System, o: map<word, Owner>, slot: nat, s: nat)
    requires SystemInv(sys, o) && slot in sys.state.procs && s in sys.state.procs && s != slot
    requires Listed(sys, slot) && AllPaged(sys.state) && Ready(sys.state.mem.frames, sys.state.procs[slot])
    ensures var m, d, t := sys.state.mem.frames, sys.state.procs[s].dir, sys.state.procs[slot].task;
            && (forall f :: f in Footprint(m, d) ==> f in m && |m[f]| == ENTRIES)
            && (Agree(m, Ended(sys, slot).state.mem.frames, Footprint(m, d))
                <==> (sys.links.prev[t] in Footprint(m, d) ==> m[sys.links.prev[t]][NEXT_WORD] == sys.links.next[t]))
  {
    hide Inv, Proper, Ready, Paged, Removed, TaskStructs, Footprint, Overwritten, Terminate;
    var m, t, u := sys.state.mem.frames, sys.state.procs[slot].task, TerminateStep(sys.state, slot);
    var d := sys.state.procs[s].dir;
    var block, value := sys.links.prev[t], sys.links.next[t];
    TerminateKeepsOthers(sys.state, o, slot, s);
    NullIsNoTable(sys.state, o, s);
    SpaceUnchanged(m, u.mem.frames, d);
    StoredAgreesExactlyWhen(u.mem.frames, d, block, value);
    FramesOfSpace(m, d);
    AgreeThrough(m, u.mem.frames, Stored(u.mem.frames, block, value), Footprint(m, d));
  }

  lemma WriteMissesProcess(sys: System, o: map<word, Owner>, slot: nat, s: nat)
    requires SystemInv(sys, o) && slot in sys.state.procs && s in sys.state.procs && s != slot
    requires Listed(sys, slot) && AllPaged(sys.state) && Ready(sys.state.mem.frames, sys.state.procs[slot])
    ensures var m, t, v := sys.state.mem.frames, sys.state.procs[slot].task, Ended(sys, slot).state;
            && s in v.procs
            && (v.procs[s] == sys.state.procs[s] && Agree(m, v.mem.frames, Footprint(m, sys.state.procs[s].dir))
                <==> WriteMisses(m, sys.state.procs[s], sys.links.prev[t], sys.links.next[t]))
  {
    hide Inv, Proper, Ready, Paged, Ended, TaskStructs, Footprint, Overwritten, Agree;
    var t := sys.state.procs[slot].task;
    SpaceMissedExactlyWhen(sys, o, slot, s);
    EndedProcs(sys, slot);
    OverwrittenSameExactlyWhen(sys.state.procs[s], sys.links.prev[t], sys.links.next[t]);
  }

  lemma FramesOfSpace(m: Frames, d: word)
    requires Paged(m, d)
    ensures forall f :: f in Footprint(m, d) ==> f in m && |m[f]| == ENTRIES
  {
  }

  lemma AgreeThrough(m: Frames, n: Frames, k: Frames, fs: set<word>)
    requires Agree(m, n, fs)
    ensures Agree(m, k, fs) <==> Agree(n, k, fs)
  {
  }

  /**
   Terminating a process leaves the list in order and every other process untouched, page tables and
   records, exactly when it is clean.
   */
  lemma EndedCleanExactlyWhen(sys: System, o: map<word, Owner>, slot: nat)
    requires SystemInv(sys, o) && slot in sys.state.procs
    requires Listed(sys, slot) && AllPaged(sys.state) && Ready(sys.state.mem.frames, sys.state.procs[slot])
    ensures Proper(Ended(sys, slot).links, Ended(sys, slot).tasks) && OthersUntouched(sys, slot, Ended(sys, slot).state)
       <==> Clean(sys, slot)
  {
    hide Inv, Proper, Ready, Paged, TerminateStep, Removed, TaskStructs, Footprint, Agree, Removable, WithStored,
      WriteMisses;
    var t := sys.state.procs[slot].task;
    RemovedExactlyWhen(sys.links, sys.tasks, Position(sys.tasks, t));
    forall s | s in sys.state.procs && s != slot
      ensures var m, v := sys.state.mem.frames, Ended(sys, slot).state;
              && s in v.procs
              && (v.procs[s] == sys.state.procs[s] && Agree(m, v.mem.frames, Footprint(m, sys.state.procs[s].dir))
                  <==> WriteMisses(m, sys.state.procs[s], sys.links.prev[t], sys.links.next[t]))
    {
      WriteMissesProcess(sys, o, slot, s);
    }
  }

  lemma TaskStructsAfterTermination(st: State, o: map<word, Owner>, slot: nat, t: word)
    requires Inv(st, o) && slot in st.procs && Ready(st.mem.frames, st.procs[slot])
    ensures t in TaskStructs(TerminateStep(st, slot)) <==> t in TaskStructs(st) && t != st.procs[slot].task
  {
    hide Inv, Ready, Terminate;
    var u := TerminateStep(st, slot);
    if t in TaskStructs(st) && t != st.procs[slot].task {
      var s :| s in st.procs && st.procs[s].task == t;
      assert s in u.procs && u.procs[s].task == t;
    }
    if t in TaskStructs(u) {
      var s :| s in u.procs && u.procs[s].task == t;
      assert s in st.procs && st.procs[s].task == t;
      LoadedTaskOwner(st, o, s);
      LoadedTaskOwner(st, o, slot);
    }
  }

  lemma RemainingSpaceAgrees(sys: System, o: map<word, Owner>, slot: nat, s: nat)
    requires SystemInv(sys, o) && slot in sys.state.procs && s in sys.state.procs && s != slot
    requires Listed(sys, slot) && AllPaged(sys.state) && Ready(sys.state.mem.frames, sys.state.procs[slot])
    requires OthersUntouched(sys, slot, Ended(sys, slot).state)
    ensures var m, d := TerminateStep(sys.state, slot).mem.frames, sys.state.procs[s].dir;
            Paged(m, d) && Agree(m, Ended(sys, slot).state.mem.frames, Footprint(m, d))
  {
    hide Inv, Proper, Ready, Paged, TerminateStep, Removed, TaskStructs, Footprint, Agree, Removable, Ended;
    var m, u, d := sys.state.mem.frames, TerminateStep(sys.state, slot), sys.state.procs[s].dir;
    TerminateKeepsOthers(sys.state, o, slot, s);
    SpaceUnchanged(m, u.mem.frames, d);
    AgreeThrough(m, u.mem.frames, Ended(sys, slot).state.mem.frames, Footprint(m, d));
  }

  lemma EndedProcs(sys: System, slot: nat)
    requires Listed(sys, slot) && Ready(sys.state.mem.frames, sys.state.procs[slot])
    ensures var v, t := Ended(sys, slot).state, sys.state.procs[slot].task;
            && TerminateStep(sys.state, slot).procs == sys.state.procs - {slot}
            && v.procs.Keys == sys.state.procs.Keys - {slot}
            && forall s :: s in v.procs ==>
                 v.procs[s] == Overwritten(sys.state.procs[s], sys.links.prev[t], sys.links.next[t])
  {
    hide Ready, Terminate, Stored, Removed, Overwritten;
  }

  /** Memory and list after task_free, with the process still in its slot. */
  ghost predicate AlmostEnded(sys: System, slot: nat, st: State, links: Links)
    requires Listed(sys, slot) && Ready(sys.state.mem.frames, sys.state.procs[slot])
  {
    var p := sys.state.procs[slot];
    var block, value, mem := sys.links.prev[p.task], sys.links.next[p.task], Terminate(sys.state.mem, p);
    && links == Removed(sys.links, p.task) && st.kernel == sys.state.kernel
    && st.mem == mem.(frames := Stored(mem.frames, block, value)) && st.procs.Keys == sys.state.procs.Keys
    && forall s :: s in st.procs && s != slot ==> st.procs[s] == Overwritten(sys.state.procs[s], block, value)
  }

  lemma AlmostEndedIsEnded(sys: System, slot: nat, st: State, links: Links)
    requires Listed(sys, slot) && Ready(sys.state.mem.frames, sys.state.procs[slot])
    requires AlmostEnded(sys, slot, st, links)
    ensures System(State(st.mem, st.procs - {slot}, st.kernel + {sys.state.procs[slot].self}), links,
                   Without(sys.tasks, Position(sys.tasks, sys.state.procs[slot].task)))
         == Ended(sys, slot)
  {
    hide Ready, Terminate, Stored, Removed, Overwritten;
    EndedProcs(sys, slot);
    assert st.procs - {slot} == Ended(sys, slot).state.procs;
  }

  /** A clean termination writes frames only. */
  lemma CleanWritesFrames(sys: System, slot: nat)
    requires Listed(sys, slot) && AllPaged(sys.state) && Ready(sys.state.mem.frames, sys.state.procs[slot])
    requires OthersUntouched(sys, slot, Ended(sys, slot).state)
    ensures Ended(sys, slot).state == WithFrames(TerminateStep(sys.state, slot), Ended(sys, slot).state.mem.frames)
  {
    hide Ready, Terminate, Stored, Removed, Overwritten, Agree, Footprint, AllPaged;
    EndedProcs(sys, slot);
    assert Ended(sys, slot).state.procs == TerminateStep(sys.state, slot).procs;
  }

  /** A clean termination keeps memory and list in order. */
  lemma EndedKeepsSystemInv(sys: System, o: map<word, Owner>, slot: nat)
    requires SystemInv(sys, o) && slot in sys.state.procs
    requires Listed(sys, slot) && AllPaged(sys.state) && Ready(sys.state.mem.frames, sys.state.procs[slot])
    requires Clean(sys, slot)
    ensures exists o' :: SystemInv(Ended(sys, slot), o')
  {
    hide Inv, Proper, Ready, Paged, TerminateStep, Removed, TaskStructs, Footprint, Agree, Removable, Clean, WithStored;
    var u, v := TerminateStep(sys.state, slot), Ended(sys, slot);
    var t := sys.state.procs[slot].task;
    EndedCleanExactlyWhen(sys, o, slot);
    TerminateKeepsInv(sys.state, o, slot);
    EndedProcs(sys, slot);
    CleanWritesFrames(sys, slot);
    var o' :| Inv(u, o');
    forall s | s in u.procs
      ensures Paged(u.mem.frames, u.procs[s].dir)
      ensures Agree(u.mem.frames, v.state.mem.frames, Footprint(u.mem.frames, u.procs[s].dir))
    {
      RemainingSpaceAgrees(sys, o, slot, s);
    }
    WriteElsewhereKeepsInv(u, o', v.state.mem.frames);
    ProperIsDistinct(sys.links, sys.tasks);
    SameTaskStructs(u, v.state);
    forall x: word
      ensures x in v.tasks <==> x in TaskStructs(v.state)
    {
      WithoutHas(sys.tasks, Position(sys.tasks, t), x);
      TaskStructsAfterTermination(sys.state, o, slot, x);
    }
    assert SystemInv(v, o');
  }

  lemma ProperIsDistinct(l: Links, ts: seq<word>)
    requires Proper(l, ts)
    ensures Distinct(ts)
  {
  }

  // ---------- steps that leave the list alone ----------

  lemma SameTasksKeepSystemInv(sys: System, o: map<word, Owner>, u: State, o': map<word, Owner>)
    requires SystemInv(sys, o) && Inv(u, o') && TaskStructs(u) == TaskStructs(sys.state)
    ensures SystemInv(sys.(state := u), o')
  {
    hide Inv, Proper, TaskStructs;
  }

  lemma RecordsKeepTaskStructs(st: State, slot: nat, mem: Memory, r: seq<Allocation>, kernel: set<word>)
    requires slot in st.procs
    ensures TaskStructs(WithRecords(st, slot, mem, r, kernel)) == TaskStructs(st)
  {
    var u := WithRecords(st, slot, mem, r, kernel);
    assert forall s :: s in st.procs ==> s in u.procs && u.procs[s].task == st.procs[s].task;
    assert forall s :: s in u.procs ==> s in st.procs;
  }
}
