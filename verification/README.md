# plumOS kernel: a verified model

plumOS is a small 32-bit x86 kernel with paging, processes, pre-emptive round-robin tasks and a
FAT16 file system. This project models its memory stack, its file stack and its smaller state
machines in Dafny and proves what they keep.

The code is modelled twice where it changes state in place. Classes and methods (`Heap.Heap`,
`Paging.PageMemory`, `Processes.Process`, `Processes.Kernel`, `DiskStream.Stream`,
`Fat16.FileSystem`, `Lookup`, `TaskList.Scheduler`, `Strtok.Tokenizer`, `Command`, `PathParser`,
`Keyboard.KeyboardBuffer`) follow the C functions statement by statement. Each is proved equal to a
function on values, and the properties are then proved of those functions, where runs of any
length can be reasoned about. Integers are unbounded; every place where the C code's 32 bits matter
wraps explicitly (`Words.Wrap`).

How the files fit together:

- **Memory.** `HeapTable` gives the heap's one byte per block a meaning, a partition into live
  allocations; `Heap` is the allocator's code; `KernelHeap` reads the table as a pool of addresses.
  `PageTables` is the two-level tree seen as the plain sequence of its 2^20 entries, `AddressSpace`
  builds and tears down whole spaces, `Paging` is the code for both. `ProcessMemory`,
  `ProcessPages` and `Processes` add processes with their records. `KernelRun` has the memory's
  invariant, in which every live block has exactly one holder, and `KernelSystem` joins it with the
  task list, whose unlinking writes through pointers that may be stale. `Isolation` draws the
  conclusions about whole runs. `ProgramSpace` says at which addresses a program sees its file and its
  stack, `ProgramStays` that it goes on doing so. `Progress` shows that such runs exist, `Layout` where a process's
  blocks come to lie, `StaleLink`, `StaleRecord` and `Limits` what happens outside the allowed runs.
- **Tasks.** `TaskList` is the list and its code, `TaskHistory` whole runs of it.
- **Files.** `DiskStream` is the byte stream over sectors, `VolumeLayout` says where the regions of a volume lie, `FatChain` what a cluster chain
  means and when the code reads it rightly, `Fat16` is the reading code, `Directory` has the entries and
  their names, `Lookup` goes from the disk to the result of looking a name up, and `NamesOnDisk` says what that
  result is in terms of the raw bytes. `Files` puts it all together: the bytes that opening and reading a
  program gives.
- **Shared.** `Words` has the 32-bit arithmetic, `Config` the constants, `Wrappers` the option type.
- **Smaller machines.** `Tokens` with `Strtok` and `Command`, `PathParser`, `Keyboard`.

## Where the code falls short of the obvious claim

Each of these is kept as the code has it, with the exact condition or a concrete example proved:

- The heap's scan returns the start of a trailing free run that is too short
  (`HeapTable.OverrunsExactlyWhen`, `HeapTable.OverrunExample`).
- Rounding a request up is exact only for sizes up to 0xffffe000 (and 0xfffff000)
  (`Heap.BlocksCover`).
- A FAT16 read that starts inside a cluster takes a whole cluster's length from there
  (`FatChain.PositionsMatchExactlyWhen`, `FatChain.UnalignedReadExample`).
- The FAT entries at which a chain ends are recognised in their 12-bit forms only. The end marks that
  formatting tools write, 0xFFF8 to 0xFFFF, are taken for one more cluster, so that a read past the
  end of a file can succeed (`FatChain.WalkPastEndMark`, `FatChain.ReadPastEndMark`).
- The data region's start is rounded down (`FatChain.DataRegionMatches`).
- Directory entries are counted without the deleted ones but loaded with them, so that live entries
  behind a deleted one can be missed (`Lookup.LiveEntriesLoadedExactlyWhen`, `Lookup.LookupExactlyWhen`,
  `Lookup.HoleExample`). The count scans the sectors behind the first cluster, while the entries are
  loaded along the chain (`FatChain.InLineExactlyWhen`, `Lookup.ChainEntriesAreDiskEntries`).
- Removing a task never repairs its successor's back link. Except for the first task, removing that
  successor then leaves the list broken (`TaskList.UnlinkExactlyWhen`, `TaskList.SuccessorOfLater`,
  `TaskHistory.RunsAreProperExactlyWhen`). The first task's stale link names a freed block, into which
  its removal writes; once that block is another process's page directory or page table, the write
  destroys the other address space, and once it is the second or third block of another process's
  struct, it overwrites the size in that process's record 504 or 1016, so that a later free unmaps the
  wrong pages (`KernelSystem.RecordHitIs`, `KernelSystem.EndedCleanExactlyWhen`,
  `StaleLink.StaleLinkExample`, `StaleRecord.StaleRecordExample`).
- An exiting task's successor loses its turn (`TaskList.Scheduler.Exit`).
- A segment whose address and file offset differ modulo 4096 is mapped without that difference, so that it
  begins at the wrong byte (`ProgramSpace.SegmentSeenExactlyWhen`).
- A program header outside the file or a request of size 0 breaks what the run theorems promise
  (`Limits.HeaderOutsideExample`, `Limits.ZeroSizeExample`).
- After an allocation failed, the next command is given what is left of the failed one
  (`Command.SessionExactlyWhen`, `Command.PendingWordsComeFirst`).
- A full keyboard ring overwrites its oldest character and then stays out of step
  (`Keyboard.FifoExactlyWhen`, `Keyboard.OverflowReplaces`).
- `process_malloc` keeps the block on its error path, loading a flat binary leaves the copy that
  was read as ELF, and termination leaves the process struct. All three are blocks that the kernel
  holds for good in the run theorems (`Isolation.RunsAccount`, `Isolation.TerminateReturnsAll`).

## Model

| member | source | states |
|---|---|---|
| Words.MaskDropsFlags | src/memory/paging/paging.c:36 | flags added to a page-aligned pointer do not carry, and masking with 0xfffff000 gives the pointer back |
| Words.MaskIsSubtraction | src/memory/paging/paging.c:115 | on machine words, the mask is the subtraction that the model writes |
| Words.OrIsAddition | src/memory/paging/paging.c:160 | on machine words, or-ing flags into an aligned pointer is the addition that the model writes |
| HeapTable.DecodeIsUnique | src/memory/heap/heap.h:22-33 | the flag bytes decode to exactly one partition into allocations: IS_FIRST on first blocks only, HAS_NEXT on all but the last |
| HeapTable.SameAllocationsSameBytes | src/memory/heap/heap.c:125-151 | the partition in turn determines every byte of the table |
| HeapTable.AllocationsAreDisjoint | src/memory/heap/heap.c:131-151 | live allocations never overlap |
| HeapTable.FreeMeansUncovered | src/memory/heap/heap.c:75-78 | a block's type is free exactly when no allocation covers it |
| HeapTable.MarkTakenRecords | src/memory/heap/heap.c:131-151 | marking a free stretch adds exactly one allocation to the partition and keeps all others |
| HeapTable.FreeDropsAllocation | src/memory/heap/heap.c:159-173 | following HAS_NEXT from an allocation's first block clears exactly its blocks and drops it alone |
| HeapTable.MallocThenFree | src/memory/heap/heap.c:176-208 | freeing what was just allocated restores the table byte for byte |
| HeapTable.FirstFitIsExact | src/memory/heap/heap.c:83-117 | the scan gives the smallest start of n free blocks; with none, the start of the trailing free run, or -ENOMEM if the last block is taken |
| HeapTable.OverrunsExactlyWhen | src/memory/heap/heap.c:104-116 | marking would leave the table exactly when no run fits and yet the last block is free |
| HeapTable.SafeScan | src/memory/heap/heap.c:176-193 | a scan that does not overrun finds free blocks, or fails with -ENOMEM because nothing fits |
| HeapTable.OverrunExample | src/memory/heap/heap.c:112-116 | a two-block table on which a two-block request overruns |
| HeapTable.SingleBlockIsSafe | src/memory/heap/heap.c:83-117 | one-block requests never overrun and fail only on a full table |
| HeapTable.FreeOrderIrrelevant | src/memory/heap/heap.c:159-173 | freeing a set of live allocations gives the same bytes in whatever order |
| HeapTable.TakenIsTotal | src/memory/heap/heap.c:131-173 | the number of taken entries is the sum of the sizes of the live allocations |
| Heap.BlocksCover | src/memory/heap/heap.c:61-72 | the rounded request covers the size exactly when it is at most 0xffffe000, or 0xfffff000 |
| Heap.BlocksAreTight | src/memory/heap/heap.c:61-72 | no block is wasted for sizes up to 2^31 |
| Heap.BlocksExactly | src/memory/heap/heap.c:61-72 | the number of blocks for every size: rounded up, and one more for sizes beyond 2^31 that do not fill their last block |
| Heap.Heap.Create | src/memory/heap/heap.c:31-57 | succeeds exactly on aligned bounds with one entry per block, then records no allocation; else leaves the entries alone |
| Heap.Heap.GetStartBlock | src/memory/heap/heap.c:83-117 | the loop computes the scan that FirstFitIsExact characterises |
| Heap.Heap.MarkBlocksTaken | src/memory/heap/heap.c:131-151 | exactly the n blocks get the bytes of an n-block allocation |
| Heap.Heap.MarkBlocksFree | src/memory/heap/heap.c:159-173 | the table becomes what following HAS_NEXT clears |
| Heap.Heap.MallocBlocks | src/memory/heap/heap.c:176-193 | new table and address, or null and the old table |
| Heap.Heap.Malloc | src/memory/heap/heap.c:196-203 | the same for the rounded-up size |
| Heap.Heap.Free | src/memory/heap/heap.c:205-208 | the table after freeing the block at an address |
| KernelHeap.KmallocAdds | src/memory/heap/kheap.c:27-30 | success adds one page-aligned address that was not live with its block count; null means nothing fits and nothing changed |
| KernelHeap.KfreeRemoves | src/memory/heap/kheap.c:44-47 | freeing a live address removes exactly that entry from the pool |
| KernelHeap.SpansAreDisjoint | src/memory/heap/heap.c:120-123 | two different live allocations share no byte address |
| KernelHeap.SpansAreInHeap | src/memory/heap/kheap.c:14-19 | every live allocation lies inside the heap's 100 MB |
| KernelHeap.SamePoolSameTable | src/memory/heap/heap.c:119-157 | equal pools of addresses mean equal table bytes |
| PageTables.IndexesAreABijection | src/memory/paging/paging.c:64-94 | directory and table index lie below 1024 and name each aligned address exactly once |
| PageTables.MapToIsPointwise | src/memory/paging/paging.c:154-211 | mapping a range updates exactly the entries of its pages, in order and also across the top of the address space; bad arguments give -EINVARG and change nothing |
| PageTables.MapToKeepsShape | src/memory/paging/paging.c:98-119 | mapping keeps the directory and its 1024 distinct tables and writes no other frame |
| PageTables.MapToTranslates | src/memory/paging/paging.c:182-231 | every covered address v translates to phys + (v - virt), every other one as before |
| PageTables.SpaceUnchanged | src/memory/paging/paging.c:98-119 | a space whose own frames are untouched has the same 2^20 entries |
| AddressSpace.NewSpaceFacts | src/memory/paging/paging.c:12-43 | a new space takes blocks that were not live, one block each, and changes no live frame |
| AddressSpace.NewSpaceIsIdentity | src/memory/paging/paging.c:25-38 | in a new space all 2^32 addresses translate to themselves with the given flags |
| AddressSpace.SpaceBlocksCount | src/memory/paging/paging.c:12-43 | directory, tables and chunk are 1026 different blocks |
| AddressSpace.FreeSpaceFacts | src/memory/paging/paging.c:123-132 | tearing a space down, after any remapping, gives back exactly its blocks |
| AddressSpace.NewThenFreeSpace | src/memory/paging/paging.c:12-132 | building and tearing down restores the heap table byte for byte |
| Paging.PageMemory.Set | src/memory/paging/paging.c:98-119 | writes the one entry, or fails on a misaligned address |
| Paging.PageMemory.Map | src/memory/paging/paging.c:154-161 | refines one page of the mapping |
| Paging.PageMemory.MapRange | src/memory/paging/paging.c:165-178 | the loop with advancing pointers refines the mapping of a range |
| Paging.PageMemory.MapTo | src/memory/paging/paging.c:182-211 | refines the mapping that MapToIsPointwise describes |
| Paging.PageMemory.New4gb | src/memory/paging/paging.c:12-43 | the nested loops build the space that NewSpaceFacts describes |
| Paging.PageMemory.Free4gb | src/memory/paging/paging.c:123-132 | the loop frees what FreeSpaceFacts describes |
| Paging.PageMemory.Get | src/memory/paging/paging.c:214-222 | the entry of a page; index 0 for a misaligned address |
| Paging.PageMemory.PhysicalAddress | src/memory/paging/paging.c:226-231 | the translation that MapToTranslates speaks about |
| ProcessMemory.CalledAside | src/loader/formats/elfloader.c:223-265 | whatever the file system allocates and gives back while a program is opened and read, it leaves all other live blocks alone |
| ProcessMemory.AllocateProcessIsFresh | src/task/process.c:510-560 | all that a load allocates, in every role, is new, pairwise different and of the right size |
| ProcessMemory.BinaryLeavesCopy | src/task/process.c:373-383 | loading a flat binary leaves the elf_file struct and the copy of the first attempt allocated |
| ProcessPages.MapOntoItself | src/task/process.c:73-77 | mapping an allocation onto itself succeeds and sets exactly the entries of its pages |
| ProcessPages.PagesAfterMalloc | src/task/process.c:60-86 | after a malloc every writeable page still shows only the image, the stack or a record |
| ProcessPages.PagesAfterFree | src/task/process.c:282-301 | after a free no writeable page shows the freed block, and every remaining record stays mapped |
| ProcessPages.RecordsAfterFree | src/task/process.c:101-109 | clearing all records of a pointer clears exactly one, and the rest stay valid |
| ProcessPages.RecordsAreApart | src/task/process.c:46-57 | no page belongs to two records |
| ProcessPages.MapOwnFrames | src/task/process.c:386-473 | mapping frames of the own image or stack anywhere, with any flags, gives no other frame away |
| KernelRun.MallocKeepsInv | src/task/process.c:60-86 | process_malloc keeps the kernel's invariant on all its paths, also the leaking ones |
| KernelRun.FreeKeepsInv | src/task/process.c:282-301 | process_free keeps it for any non-null pointer |
| KernelRun.LoadKeepsInv | src/task/process.c:510-581 | a successful load keeps it, given program headers inside the file |
| KernelRun.TerminateKeepsInv | src/task/process.c:191-218 | all of termination but the list's write, which EndedKeepsSystemInv adds, keeps it |
| KernelRun.KernelAllocKeepsInv | src/memory/heap/kheap.c:27-41 | the kernel's own allocations keep it |
| KernelRun.KernelFreeKeepsInv | src/memory/heap/kheap.c:44-47 | freeing a block that the kernel itself holds keeps it |
| KernelRun.InvMeansReady | src/task/process.c:191-218 | under the invariant every address that termination frees lies in the heap |
| KernelRun.TerminateKeepsOthers | src/task/process.c:191-218 | all that termination does before the list is mended leaves every other space's frames alone |
| KernelSystem.StoredAgreesExactlyWhen | src/task/task.c:82-85 | the write through a task's back link leaves a space alone exactly when it misses its frames or stores what is there |
| KernelSystem.StoredInDirectory | src/task/task.c:82-85 | into a page directory, the write makes the stored address the address of a page table |
| KernelSystem.RecordHitIs | src/task/process.h:58-99 | of the blocks that a write to a task's `next` can go through, the second and third of a process struct have the sizes of records 504 and 1016 there; no other block has a part of a record there, and none a pointer |
| KernelSystem.OverwrittenSameExactlyWhen | src/task/task.c:82-85 | the write leaves a process's records alone exactly when it misses them or stores what is there |
| KernelSystem.OutsideStructs | src/task/process.h:58-99 | a live block other than a process struct never lies in one, so that a write through it hits no record |
| KernelSystem.WriteElsewhereKeepsInv | src/task/task.c:82-85 | a write into frames that misses all live spaces keeps the memory's invariant |
| KernelSystem.LoadKeepsSystemInv | src/task/task.c:29-63 | loading writes through the list's tail, which is a live task, and keeps memory and list in order |
| KernelSystem.EndedCleanExactlyWhen | src/task/task.c:76-112 | ending a process leaves the list in order and every other process untouched, page tables byte for byte and records, exactly when the back link is right and the write through it misses |
| KernelSystem.EndedKeepsSystemInv | src/task/process.c:191-218 | then memory and list stay in order |
| KernelSystem.NoBackLinkIsClean | src/task/task.c:82-85 | a first task without a back link may always go |
| Layout.ProcessFromWindow | src/task/process.c:510-560 | first fit lays a process out block after block, in the order of its allocations, where the first free stretch is long enough |
| StaleLink.StaleLinkExample | src/task/task.c:76-112 | an allowed run after which ending process 1 writes process 3's task address into process 2's page directory |
| StaleRecord.RecordHitBy | src/task/task.c:82-85 | in any state, ending a task whose back link names the second block of another process's struct stores the next task's address as the size of record 504, and nothing else of that process changes |
| StaleRecord.ShortFree | src/task/process.c:282-301 | freeing a record that covers less than its allocation leaves the pages behind it writeable, though no live allocation has their frames |
| StaleRecord.StaleRecordExample | src/task/task.c:76-112 | an allowed run of 511 steps after which ending process 1 cuts process 2's record 504 short; records and heap then disagree, and after process 2 frees that record isolation fails |
| Limits.ZeroSizeExample | src/memory/heap/heap.c:83-151 | a request of size 0 returns the address that the next request for a block gets too |
| Limits.HeaderOutsideExample | src/task/process.c:414-439 | with a segment in front of the file's copy the process can write the elf_file struct |
| Isolation.NextKeepsInv | src/task/process.c:60-581 | every allowed step of any kind, with the list's writes, keeps the invariant of memory and task list |
| Isolation.RunsAreIsolated | src/task/process.c:60-581 | after any run a process can write only frames of its own image, stack and records; no other process can write them, and none holds a page table, a directory, a process, task or ELF struct, or kernel data |
| Isolation.RunsStayUsable | src/task/process.c:191-218 | no run reaches a state in which the kernel would free an address outside the heap or miss a task on the list |
| Isolation.RunsKeepTheList | src/task/task.c:29-101 | after any run the list is properly linked and holds exactly the live processes' tasks in creation order |
| Isolation.RunsEndExactlyWhen | src/task/task.c:76-112 | in every reachable state, ending a process keeps the list, other page tables and other processes' records intact exactly when it is clean |
| Isolation.RunsRecordsAgree | src/task/process.c:46-131 | after any run each record names its own live allocation of ceil(size/4096) blocks, identity-mapped and writeable |
| Isolation.RunsAccount | src/task/process.c:60-581 | after any run every live block has exactly one holder and every held block is live |
| Isolation.TerminateReturnsAll | src/task/process.c:191-218 | in every reachable state, termination, clean or not, gives back records, image, stack, task and page tables, and leaves just the process struct |
| Isolation.FreeUnrecorded | src/task/process.c:284-288 | freeing a pointer without a record changes nothing at all |
| Isolation.FreeTwice | src/task/process.c:282-301 | so the second of two frees changes nothing |
| Isolation.MallocThenFree | src/task/process.c:60-301 | a process's malloc and free of the result restores heap bytes and all its records |
| ProgramSpace.SegmentMapped | src/task/process.c:417-434 | mapping one program header makes exactly the pages that its bytes reach show the matching pages of the file's copy, read-only or writeable as the header says |
| ProgramSpace.SegmentsMapped | src/task/process.c:403-442 | where several headers reach one page the last one counts; pages that none reaches stay |
| ProgramSpace.MappingStops | src/task/process.c:432-439 | the first header whose range runs past the end of the address space fails the mapping; those before it are mapped, none behind it is |
| ProgramSpace.SegmentSeen | src/task/process.c:403-442 | after a load, byte x of a segment is seen at vaddr + x, writeable exactly if the header says so, wherever no later segment and no stack covers its page |
| ProgramSpace.SegmentSeenExactlyWhen | src/task/process.c:432-434 | a visible segment begins at its own first byte exactly when its address and its file offset agree modulo 4096 |
| ProgramSpace.TextAndDataSeen | programs/shell/linker.ld:5-32 | a file with read-only text at 0x400000 and data two pages on is seen as it was linked |
| ProgramSpace.BinarySeen | src/task/process.c:386-400 | byte x of a flat binary is seen at 0x400000 + x, writeable |
| ProgramSpace.StackSeen | src/task/process.c:466-469 | byte x of the 16 KB stack is seen at 0x3fb000 + x, writeable, whatever the headers say |
| ProgramSpace.ElsewhereSeen | src/memory/paging/paging.c:25-38 | every other address shows the byte of its own number, read-only |
| ProgramStays.RunsKeepTheProgram | src/task/process.c:60-581 | outside the heap a process sees at each address what it saw before, through any run that does not end it |
| ProgramStays.SegmentsStaySeen | src/task/process.c:60-581 | from a new kernel, after any run, a load and any further run: the segments are still where they were linked |
| ProgramStays.RunsShowRecords | src/task/process.c:60-86 | after any run each process can read and write every byte that its records say it has, at that byte's own address |
| ProgramStays.FreedIsUnseen | src/task/process.c:290-296 | the pages of a freed record are no longer present |
| Progress.CalledFromTail | src/loader/formats/elfloader.c:223-265 | the file system's calls succeed in the free blocks at the end of the heap, and take no more of them than they ask for |
| Progress.LoadSucceeds | src/task/process.c:510-581 | a load succeeds whenever enough blocks at the end of the heap are free |
| Progress.FirstLoadAllowed | src/task/process.c:496-508 | so any program that fits can start in any slot of a new kernel |
| Processes.Process.FindFreeAllocationIndex | src/task/process.c:46-57 | the first empty record, or -ENOMEM |
| Processes.Process.GetAllocationByAddress | src/task/process.c:111-120 | the first record of an address, or none |
| Processes.Process.AllocationUnjoin | src/task/process.c:101-109 | every record of the address is cleared, no other |
| Processes.TerminateAllocations | src/task/process.c:124-131 | the loop frees every recorded pointer in order |
| Processes.MapElf | src/task/process.c:403-442 | the loop maps header after header and stops at the first failure |
| Processes.MapMemory | src/task/process.c:445-473 | image, then stack, as LoadStep has them |
| Processes.StoreNext | src/task/task.c:82-85 | the write through a pointer, into a table if it is one, and into the record of any process whose struct it lies in |
| Processes.TaskFree | src/task/task.c:104-112 | space, list and struct in the code's order, with the write in between |
| Processes.TerminateProcess | src/task/process.c:191-210 | memory, list and all other processes after termination, up to the process table |
| Processes.Kernel.StoreWord | src/task/task.c:82-85 | the write is the one that the run theorems' steps perform on the whole state |
| Processes.Kernel.ListTask | src/task/task.c:44-55 | the new task is linked through the tail |
| Processes.Kernel.EndProcess | src/task/process.c:191-210 | the same for the whole table, with the process still in its slot |
| Processes.FileCalls | src/loader/formats/elfloader.c:223-265 | the allocations and frees of opening, reading and closing a file are the ones that CalledAside speaks about |
| Processes.LoadData | src/task/process.c:373-383 | loading tries ELF first; for a flat binary the first copy and its struct stay behind |
| Processes.Kernel.GetFreeSlot | src/task/process.c:476-483 | the first free slot, or the positive error number EISTKN, which names an occupied slot |
| Processes.Kernel.Malloc | src/task/process.c:60-86 | the code's state change is the run theorems' malloc step |
| Processes.Kernel.Free | src/task/process.c:282-301 | the code's state change is the run theorems' free step |
| Processes.Kernel.Load | src/task/process.c:510-581 | the code's state change, with the task list, is the run theorems' load step |
| Processes.Kernel.Terminate | src/task/process.c:191-218 | the code's state change, with the task list and the write through its back link, is the run theorems' terminate step |
| DiskStream.Stream.Read | src/disk/streamer.c:31-68 | terminates, copies exactly disk[pos..pos+total), advances by total and reads each of the sectors pos/512 to (pos+total)/512 once, in order |
| DiskStream.Stream.Seek | src/disk/streamer.c:20-24 | sets the position |
| VolumeLayout.FatEntryOnDisk | src/fs/fat/fat16.c:429-457 | the entry of cluster c is the little-endian word at offset 2 (c mod 256) of sector reserved + c / 256, as in section 4.1 of the Microsoft FAT specification |
| VolumeLayout.BootFatEntry | src/boot/boot.asm:18-25 | on the system's own volume the entry of cluster 3 is bytes 6 and 7 of sector 200 |
| VolumeLayout.RootFollowsFats | src/fs/fat/fat16.c:259-263 | the FAT copies lie one after the other from the reserved sectors on, and the root directory begins where the last one ends |
| VolumeLayout.ClustersFollowRoot | src/fs/fat/fat16.c:297 | cluster 2 begins where the root directory's entries end exactly when these fill whole sectors, else less than a sector too early |
| VolumeLayout.ClustersTile | src/fs/fat/fat16.c:418-427 | each cluster begins where the one before it ends |
| VolumeLayout.BootLayout | src/boot/boot.asm:18-25 | on the system's own volume the root directory is in sector 712, cluster 2 in sector 716, and clusters are 64 KB |
| FatChain.DataRegionMatches | src/fs/fat/fat16.c:297 | the data region starts where section 6.7 of the Microsoft FAT specification puts it exactly when the root directory fills whole sectors |
| FatChain.ReadSucceedsWhen | src/fs/fat/fat16.c:462-540 | a read returns 0 exactly when the walk to its last step's cluster meets no marker, else -EIO |
| FatChain.ReadBytesAt | src/fs/fat/fat16.c:508-540 | from which disk position each byte of the buffer comes |
| FatChain.PositionsMatchExactlyWhen | src/fs/fat/fat16.c:519-536 | all positions are the file's exactly when each cluster end that a step runs past is followed by the adjacent cluster |
| FatChain.ReadRefinesFile | src/fs/fat/fat16.c:508-540 | then the buffer holds bytes [offset, offset+total) of the clusters joined in chain order |
| FatChain.AlignedMeansNoGap | src/fs/fat/fat16.c:519-522 | cluster-aligned reads, and reads inside one cluster, meet the condition on any chain |
| FatChain.ContiguousMeansNoGap | src/fs/fat/fat16.c:519-522 | chains that are contiguous up to the last byte meet it at any offset |
| FatChain.AlignedRead | src/fs/fat/fat16.c:462-540 | an aligned read gives the file's bytes if the chain reaches the last one, else -EIO |
| FatChain.ContiguousRead | src/fs/fat/fat16.c:508-540 | a read of a contiguous file from any offset gives the file's bytes |
| FatChain.WalkPastEndMark | src/fs/fat/fat16.c:470-498 | past a standard end mark the walk goes on with the mark as a cluster; with no entry of its own it ends one cluster too late |
| FatChain.WalkPastMarker | src/fs/fat/fat16.c:470-498 | past one of the code's own markers the walk gives -EIO |
| FatChain.WalkEndsExactlyWhen | src/fs/fat/fat16.c:470-498 | a step of the walk ends it exactly at the entries 0, 0xFF0, 0xFF6, 0xFF7, 0xFF8 and 0xFFF, and else goes to the cluster entered |
| FatChain.ReadPastEndMark | src/fs/fat/fat16.c:508-540 | a read beyond a standard end mark gives -EIO exactly when the walk from the mark on ends in time |
| FatChain.InReachWhen | src/fs/fat/fat16.c:519-521 | positions fit in an int if the clusters that the read walks to lie low enough, whatever follows them on the chain |
| FatChain.BootVolumeInReach | src/boot/boot.asm:18-25 | so every file in the first 32760 clusters of the system's own volume can be read |
| FatChain.InLineExactlyWhen | src/fs/fat/fat16.c:597-600 | a file's bytes lie in line on the disk exactly when its chain is contiguous that far |
| FatChain.BlocksCompose | src/fs/fat/fat16.c:742-762 | blocks whose size divides the cluster size, read from a multiple of it, fill the buffer with one stretch of the file |
| FatChain.BlocksReadFile | src/fs/fat/fat16.c:742-762 | blocks of any size fill the buffer with one stretch of the file if none of them meets a gap |
| FatChain.WholeFileRead | src/loader/formats/elfloader.c:248-249 | one block of a file's size, whatever it is, read from the start, gives the file's bytes |
| FatChain.UnalignedReadExample | src/fs/fat/fat16.c:519-536 | a two-byte read across a cluster end that returns the wrong byte |
| Fat16.FileSystem.GetFatEntry | src/fs/fat/fat16.c:435-459 | the little-endian entry of a cluster |
| Fat16.FileSystem.GetClusterForOffset | src/fs/fat/fat16.c:462-504 | the walk from the first cluster, -EIO at the code's markers |
| Fat16.FileSystem.ReadInternal | src/fs/fat/fat16.c:508-551 | buffer and result are those that FatChain's theorems speak about, the rest of the buffer unchanged |
| Fat16.FileSystem.Read | src/fs/fat/fat16.c:742-762 | the same for the loop over blocks; the descriptor's position stays |
| Directory.NamesAreUnambiguous | src/fs/fat/fat16.c:385-396 | two legal entries whose rendered names agree up to case have the same name and extension |
| Directory.TrimIsInjective | src/fs/fat/fat16.c:363-381 | a space-padded field can be read back from its trimmed form |
| Directory.LowerExactlyWhen | src/string/string.c:3-10 | two characters have the same lower-case form exactly when they are equal or the two cases of one letter |
| Directory.Istrncmp | src/string/string.c:75-87 | zero exactly when the strings have equal length and at each place the same character or the two cases of one letter |
| Directory.ToProperString | src/fs/fat/fat16.c:363-381 | appends the trimmed field and a terminator, leaving the rest of the buffer |
| Directory.RenderName | src/fs/fat/fat16.c:385-396 | the buffer holds name, dot and extension, then zeros |
| Directory.FindItem | src/fs/fat/fat16.c:647-664 | null exactly when nothing matches, else the last matching entry |
| Directory.AtMostOneMatch | src/fs/fat/fat16.c:647-664 | among differently named legal entries a name matches at most one |
| Directory.TotalItems | src/fs/fat/fat16.c:200-243 | the number of entries before the end marker that are not deleted |
| Directory.CountedAllExactlyWhen | src/fs/fat/fat16.c:232-238 | the count is the number of entries exactly when none is deleted |
| Lookup.LiveEntriesLoadedExactlyWhen | src/fs/fat/fat16.c:600-613 | all live entries are among the loaded ones exactly when none comes behind a deleted one |
| Lookup.LookupExactlyWhen | src/fs/fat/fat16.c:647-664 | with different legal names, lookups are right for every name if and only if no live entry comes behind a deleted one |
| Lookup.LookupWithoutHole | src/fs/fat/fat16.c:647-664 | without a hole a name is found exactly when a live entry has it |
| Lookup.MissedEntry | src/fs/fat/fat16.c:647-664 | a live entry behind the loaded ones is not found under its own name |
| Lookup.HoleExample | src/fs/fat/fat16.c:600-613 | three entries, the first deleted: the last is there and is not found |
| Lookup.ChainEntriesAreDiskEntries | src/fs/fat/fat16.c:597-613 | the loaded entries are the counted ones if the directory's clusters are adjacent |
| Lookup.LoadFatDirectory | src/fs/fat/fat16.c:580-620 | counts behind the first cluster's start and loads as many entries from the chain |
| Lookup.FindInFatDirectory | src/fs/fat/fat16.c:647-664 | in a loaded subdirectory with adjacent clusters and no hole, null exactly when no live entry has the name |
| Lookup.LoadRoot | src/fs/fat/fat16.c:255-305 | the root directory's whole area, and the count |
| Lookup.FindInRoot | src/fs/fat/fat16.c:647-664 | in the root directory, null exactly when no loaded entry has the name and, without a hole, when no live one has |
| NamesOnDisk.DiskEntryBytes | src/fs/fat/fat16.c:90-105 | name byte k of entry i is byte 32 i + k of the directory, extension byte k is byte 32 i + 8 + k |
| NamesOnDisk.RenderedIsNamed | src/fs/fat/fat16.c:385-396 | an entry's rendered name is what stands in its 8-byte field, a dot and what stands in the 3-byte field, without the dot if that is nothing |
| NamesOnDisk.PresentExactlyWhen | src/fs/fat/fat16.c:647-664 | what the lookups are proved to find is what the raw bytes of a live entry name, in whatever case |
| NamesOnDisk.FoundExactlyWhen | src/fs/fat/fat16.c:647-664 | in a raw directory without a hole, a name is found exactly when a live entry's bytes name it up to case |
| NamesOnDisk.BlankIsFound | src/kernel.c:200 | the entry "BLANK   ELF" is found as blank.elf |
| Fat16.FileDescriptor.Stat | src/fs/fat/fat16.c:820-839 | the size of a file's item; directories are refused |
| Files.EntryDescribes | src/fs/fat/fat16.c:90-105 | attribute, first cluster and size of an entry come from its bytes 11, 20 to 21, 26 to 27 and 28 to 31 |
| Files.OnlyThatFile | src/fs/fat/fat16.c:647-664 | with no hole and different names, whatever item a name's lookup gives has the cluster and the size that the raw bytes of the one entry of that name have |
| Files.OpenInRoot | src/fs/fat/fat16.c:704-739 | null exactly when no loaded entry has the name, else a descriptor at position 0 on an entry that has it |
| Files.ReadProgram | src/loader/formats/elfloader.c:229-252 | if the raw root directory has the name, in whatever case, for a file whose chain covers its size, then the memory that opening and reading fill is that file, its clusters joined in chain order; a name that is not there gives -EIO |
| TaskList.UnlinkExactlyWhen | src/task/task.c:82-85 | the others form a chain after the unlinking exactly when the removed task's back link names its predecessor or, for the first task, nothing on the list |
| TaskList.AddedIsProper | src/task/task.c:44-55 | creation keeps a proper list and records the last task as the new one's predecessor |
| TaskList.RemovedExactlyWhen | src/task/task.c:76-101 | head, tail, chain and current task are right after a removal exactly when the back link was |
| TaskList.SuccessorOfFirst | src/task/task.c:76-101 | after the first task goes its successor stays removable until the freed address is used for a new task, and no longer then |
| TaskList.SuccessorOfLater | src/task/task.c:76-101 | after any other task goes its successor cannot be removed cleanly |
| TaskHistory.CleanIsRemovable | src/task/task.c:52-54 | what the back links hold is decided by the history of creations and removals |
| TaskHistory.RunsAreProperExactlyWhen | src/task/task.c:29-101 | over any sequence of creations and removals the list stays right if and only if each removed task was first, with its predecessor's address not on the list again, or its predecessor at creation is still there |
| TaskHistory.LastOutIsClean | src/task/task.c:76-101 | last in, first out is always right |
| TaskHistory.MiddleFirst | src/task/task.c:76-101 | a removal from the middle makes that of the task behind it wrong |
| TaskList.Scheduler.New | src/task/task.c:44-55 | refines a creation; the new task is last, the first one becomes current |
| TaskList.Scheduler.Next | src/task/task.c:65-73 | the choice is the next task in creation order, round to the head |
| TaskList.Scheduler.Unlink | src/task/task.c:76-101 | refines a removal, whatever the list looks like |
| TaskList.Scheduler.Link | src/task/task.c:44-55 | refines a creation, whatever the list looks like |
| TaskList.Scheduler.Remove | src/task/task.c:76-101 | head, tail, chain and current task are right afterwards exactly when the back link was; the current task moves to the successor |
| TaskList.Scheduler.Exit | src/isr80h/process.c:103-109 | after an exit the processor goes to the task behind the successor |
| TaskList.RoundRobin | src/task/task.c:65-73 | as many turns as there are tasks give each exactly one, in creation order from the current one, and end where they began |
| TaskList.ArrivalsKeepTheirPlace | src/task/task.c:52-73 | tasks that are added during a round displace none that is due before the wrap |
| Tokens.WordsExactlyWhen | programs/stdlib/src/string.c:115-121 | a list is the words of a text if and only if the text is that list woven with gaps of delimiters, empty only at both ends |
| Strtok.Tokenizer.Strtok | programs/stdlib/src/string.c:125-177 | gives the first word of the pending text, or of the argument if none is pending, leaves the others pending, and ends with a null position |
| Strtok.EndWord | programs/stdlib/src/string.c:165-175 | ends the word with a NUL, the one character that changes, and steps over it |
| Strtok.SkipDelimiters | programs/stdlib/src/string.c:138-157 | goes to the first character that is no delimiter |
| Command.ParseCommand | programs/stdlib/src/plumos.c:9-58 | the list holds the words, cut to 511 characters, as far as memory reaches, and what then stays pending in strtok |
| Command.Collect | programs/stdlib/src/plumos.c:36-54 | the loop appends one node for each further word |
| Command.SessionExactlyWhen | programs/stdlib/src/plumos.c:9-58 | in any sequence of commands each gets precisely its own words if and only if memory suffices for every one |
| Command.PendingWordsComeFirst | programs/stdlib/src/plumos.c:40-45 | otherwise the next command gets the words left over |
| PathParser.ParsePrintExactlyWhen | src/fs/pparser.c:107-157 | a printed path parses back to its drive and parts if and only if it has at most 108 characters and every part is non-empty and free of slashes |
| PathParser.PrintParse | src/fs/pparser.c:107-157 | what was parsed prints as a beginning of the path, and as all of it exactly when no component is empty |
| PathParser.PartsAreLeading | src/fs/pparser.c:130-152 | the parts are the components before the first empty one |
| PathParser.SplitJoin | src/fs/pparser.c:43-65 | splitting at slashes undoes joining |
| PathParser.JoinSplit | src/fs/pparser.c:43-65 | joining undoes splitting, into components without slashes |
| PathParser.GetPathPart | src/fs/pparser.c:43-65 | copies one component with its terminator inside the 108-character buffer and steps over the slash |
| PathParser.ParsePathPart | src/fs/pparser.c:69-85 | links the new part behind the last one |
| PathParser.ParseParts | src/fs/pparser.c:130-152 | terminates with the linked list of exactly the parts |
| PathParser.ParsePath | src/fs/pparser.c:107-157 | null for a bad or long path, else the drive and the list of parts |
| Keyboard.PushAdds | src/keyboard/keyboard.c:74-89 | with room, a push adds at the end of the queue in the ring |
| Keyboard.PopTakes | src/keyboard/keyboard.c:94-112 | a pop takes the oldest character, and returns 0 exactly when the queue is empty |
| Keyboard.UsedCells | src/keyboard/keyboard.c:42-45 | the cells that are not NUL are exactly those from head to tail |
| Keyboard.RunIsFifo | src/keyboard/keyboard.c:74-112 | over any run without overflow, characters come out in the order typed, none lost |
| Keyboard.FifoExactlyWhen | src/keyboard/keyboard.c:74-112 | a run is first-in-first-out if and only if it never overflows the ring |
| Keyboard.OverflowReplaces | src/keyboard/keyboard.c:86-88 | a push into a full ring replaces the oldest character and comes out first |
| Keyboard.KeyboardBuffer.KeyboardPush | src/keyboard/keyboard.c:74-89 | the code refines a push; the ring stays in step exactly when there was room |
| Keyboard.KeyboardBuffer.KeyboardPop | src/keyboard/keyboard.c:94-112 | the code refines a pop |

## Left out

- A heap request of size 0 or above 0xffffe000: `Allowed` keeps such steps, and those on which the scan overruns, out of runs; `Limits.ZeroSizeExample` and `HeapTable.OverrunExample` show why.
- Heap.Heap.MallocBlocks: is for at least one block and a scan that does not overrun; otherwise the marking loop leaves the table or marks nothing.
- Heap.Heap.Malloc: the same.
- Heap.Heap.Free: is for addresses that are not a block or more below the pool; for others the code writes in front of the table.
- Processes.Kernel.Malloc: is for the requests of Heap.Heap.Malloc.
- Processes.Kernel.Free: is for non-null pointers; a null pointer matches an empty record and reaches `kfree(0)`.
- Processes.TerminateAllocations: frees the recorded pointers only; on each empty record the code reaches `kfree(0)`, whose negative block index lies outside the table.
- Processes.Kernel.Load: is for loads that succeed; failed loads leak in several ways. A program file is given by its size, its program headers, which lie inside the file in the run theorems, and the heap calls that the file system makes while it is opened, read and closed.
- Processes.LoadData: is for successful loads; which heap calls the file system makes is a parameter (`Calls`), since path, descriptors and directory items are not part of the memory model. The example runs use files that need none.
- Isolation.RunsAreIsolated: is about page tables after each step, not about what the kernel itself copies into a process's memory; `copy_string_from_task` and `process_inject_arguments` are not modelled.
- KernelSystem.EndedCleanExactlyWhen: a clean removal of the first task may still write one word into a block whose contents are not modelled: another process's image, stack or heap memory, the file name in the first block of a process struct or in an elf_file struct, or the kernel's own data.
- Runs that go on after an unclean removal: the predecessor then still leads to the freed task, and the scheduler would run it.
- Contents of memory other than page tables: frames hold entries only where they serve as directories and tables.
- Processes.Kernel.Terminate: does not choose a new current process; with none left the code panics.
- Processes.Process: the 1024 records are one field that the methods reassign, not an array updated in place.
- The kernel's own page directory: its allocations are ordinary kernel blocks in the run theorems.
- TaskList.Scheduler.New: the address of the new struct is a parameter; that it differs from the live tasks is what KernelSystem.NewTaskIsNew shows.
- TaskList.Scheduler.Exit: is for two tasks or more with a right back link; when the last task goes, `task_get_next` follows a null pointer.
- TaskList.UnlinkExactlyWhen: speaks of the list alone; where the first task's stale link leads is KernelSystem's subject.
- Registers, privilege switches, interrupts, the interrupt and segment tables, ATA ports and the terminal: hardware.
- DiskStream.Stream.Read: the disk always delivers; error returns of `disk_read_block` are not modelled.
- Fat16.FileSystem.Read: is for reads whose positions stay below 2^31; seeking is not modelled.
- FatChain.ReadPastEndMark: the cluster taken for a file's continuation may lie where positions overflow an int, as on the system's own volume; such a read is outside what the reading code is modelled for.
- Files.ReadProgram: is for names in the root directory whose files lie where positions fit an int; the file-descriptor table and the path's drive are left out, and a directory of the name is refused when its size is asked for.
- Files.OpenInRoot: is for reading, which is the one mode there is.
- Directory.TotalItems: is for directories with an end marker; without one the scan runs on into whatever follows.
- Directory.FindItem: gives the index of the item, not the heap copy that is made of it (an earlier match's copy is leaked).
- Lookup.FindInFatDirectory: stops when loading fails; the code goes on with an array that it has freed. The walk of `fat16_get_directory_entry` from directory to directory is not modelled.
- Lookup.FindInRoot: is for an end marker inside the root directory's area.
- Strtok.Tokenizer.Strtok: the buffer of a text that stays pending is taken to be intact, although `plumos_parse_command` leaves it on a dead stack frame.
- Command.ParseCommand: takes that buffer as intact as well; `plumos_malloc` is a parameter, the number of requests that it will grant.
- Command.PendingWordsComeFirst: takes it as intact as well.
- PathParser.ParsePath: allocations succeed; the code does not check them.
- Keyboard.KeyboardBuffer: which process's buffer a key goes to is left out, and so is `keyboard_backspace`, which nothing calls.
- The unused current-directory argument, write and append modes, the file-descriptor table, ELF header checks: they would add only easy members.
