# Neutrino kernel: a verified model

A Dafny model of the parts of the Neutrino kernel whose correctness is hardest to see from the code, with
proofs about every input, every state and every run:

- **Heap.** `HeapLayout` is memory as chunks and blocks; `HeapCells` says which header fields and alignment
  bytes stand for a layout; `HeapSearch` is where `malloc` looks and what it remembers; `Heap` is `malloc` and
  `free` over those cells. Layouts stay sound over any run, a request lands in the first chunk and gap of the
  search that can hold it, and `free` undoes `malloc`.
- **Scheduler.** `RoundRobin` is one pass of `sched_cycle`; `Waiting` is how a pass moves a waiting task;
  `TaskRuns` is runs of timer interrupts, arrivals and terminations; `Scheduler` is the code that updates the
  CPU's slots; `Contexts` is the first frame.
- **Paging.** `PagingBits` is the bit layout of addresses and entries; `PageTables` is the tree of tables
  over plain frames; `PageRuns` is runs of calls on it; `PageRights`, `PageProps` and `RightsRuns` are what the
  hardware then allows and the properties of every entry, after one call and after a run; `RecursiveSlots` is the
  walk through the recursive slots 510 and 509, `SlotRights` is whether the hardware lets a table be written
  there, and `Vmm` edits the tree through them, as the kernel does.
- **Physical frames.** `FrameBitmap`, `Frames` and `FrameRuns`: the bitmap search, the single-block allocator
  with its 32- and 64-bit arithmetic, from which states every run of it is safe, and when it refuses.
- **Messages.** `RingBuffer`, `RingBounds`, `Channels`, `Ipc` and `IpcCalls`: the ring, the slots it touches, the
  channel calls over a linked registry, every interleaving of any number of tasks making them, and what each call
  then reports.
- **Lists, ramdisk, numbers, dates.** `LinkedList`; `InitrdImage` and `Initrd`; `Digits`; `Calendar`. `Common`
  has what several modules share.

Code that works in place is a class or a method with loops, proved against a pure definition; the results
are lemmas about that definition. What comes from outside is a parameter: the page allocator's answer to
`malloc` (`grant`: null, or a page-aligned range apart from all chunks), the frames that the physical
allocator hands to the page-table code (`frames`), the interrupted registers (`frame`), the addresses of new
packages, and the memory an image lies in. C pointers are integers, 0 for null; `size_t` has 32 bits.

Where something the code seems to promise does not hold of it, there is a lemma with the exact condition:
`HeapLayout.FreshChunkFitsIff`, `Heap.FreerRememberedIff`, `PagingBits.CreatedEntry`, `RightsRuns.RunAllowsIff` (`KernelThenUser` is a
failing run), `SlotRights.MapEditIff`, `Vmm.Manager.MapPage`, `Frames.AddressRoundTrip`, `Frames.UsedCountIff`,
`FrameRuns.NeverRepeatsIff`, `FrameRuns.NeverOverlapsIff`, `FrameRuns.RefusesIff`, `RingBounds.InsideIff`
(`ChannelOutgrowsBuffer` is a failing run), `LinkedList.DeleteAt`, `RingBuffer.GetSize`,
`Initrd.CountIsClippedIff`, `Digits.ScratchFitsIff`, `Calendar.TimestampFitsIff`.

Check it with `dafny verify dfyconfig.toml`.

## Model

| member | source | states |
|---|---|---|
| `HeapLayout.FreshChunkFitsIff` | libs/liballoc/liballoc.c:48-73 | a chunk of the size computed for a request can hold it if and only if the request is below a fixed bound; above it the 32-bit page arithmetic wraps |
| `HeapLayout.FreshChunkIsLeast` | libs/liballoc/liballoc.c:48-62 | a fresh chunk is the smallest whole number of pages, but at least sixteen, that holds the two headers and the body |
| `HeapLayout.GapWithinFree` | libs/liballoc/liballoc.c:121-136 | no gap of a chunk is larger than the chunk's free bytes, so skipping a chunk by its free bytes loses no place |
| `HeapLayout.AllocKeepsLayout` | libs/liballoc/liballoc.c:77-292 | any request, search hint and page-allocator answer keeps the layout sound: blocks in their chunks, in order, apart; chunks apart; no empty chunk |
| `HeapLayout.AllocTotals` | libs/liballoc/liballoc.c:70-166 | a served request adds exactly its body to the bytes in use and one block to the count, and a chunk's size to the total if and only if a chunk was taken for it |
| `HeapLayout.AllocIsComplete` | libs/liballoc/liballoc.c:102-291 | a request fails if and only if no gap of any chunk can hold it and the page allocator says no; a new chunk is taken if and only if no gap can hold it |
| `HeapLayout.ReleaseKeepsLayout` | libs/liballoc/liballoc.c:294-338 | releasing any block keeps the layout sound and leaves no empty chunk |
| `HeapLayout.ReleaseTotals` | libs/liballoc/liballoc.c:310-328 | a release takes exactly the block's bytes off the bytes in use, one block off the count, and the chunk's size off the total if it was its last block |
| `HeapLayout.ReleaseUndoesAlloc` | libs/liballoc/liballoc.c:77-338 | releasing what a request placed gives back the layout from before, a chunk added for it included |
| `HeapLayout.RunKeepsLayout` | libs/liballoc/liballoc.c:77-338 | the layout is sound after any run of requests and releases |
| `HeapLayout.DroppingAllEmpties` | libs/liballoc/liballoc.c:310-328 | releasing every block, in any order, ends with no chunk at all |
| `HeapLayout.UnalignUndoesAlign` | libs/liballoc/liballoc.c:13-37 | UNALIGN recovers the address ALIGN moved, from the byte ALIGN stored |
| `HeapLayout.RegionsAreSafe` | libs/liballoc/liballoc.c:77-292 | a region handed out is 16-aligned, as long as asked for, inside its chunk, and meets no header, no alignment byte and no other region |
| `HeapCells.PlacedLinked` | libs/liballoc/liballoc.c:154-268 | linking a block's header in at a gap turns header cells that stand for one layout into cells that stand for the layout with that block |
| `HeapCells.FreshLinked` | libs/liballoc/liballoc.c:48-73 | appending a new chunk header does the same for a layout with a new chunk |
| `HeapCells.UnlinkedLinked` | libs/liballoc/liballoc.c:310-318 | joining a block's neighbours and marking it dead does the same for the layout without the block |
| `HeapCells.DroppedLinked` | libs/liballoc/liballoc.c:321-328 | joining a chunk's neighbours does the same for the layout without the chunk |
| `HeapSearch.ServedInOrder` | libs/liballoc/liballoc.c:102-287 | if some chunk has a gap for the request, it lands in the first such gap of the first such chunk: in list order, but from the remembered chunk on first if that has more free bytes than needed; the page allocator is not asked; the freest chunk looked at is remembered, the first of equals |
| `HeapSearch.ServedAfresh` | libs/liballoc/liballoc.c:93-149 | if no chunk has, the page allocator is asked; its chunk is appended and holds the request in front, or nothing changes; the freest chunk seen is remembered, the new one counted only if it is looked at |
| `HeapSearch.LandsOrAllFull` | libs/liballoc/liballoc.c:102-287 | every request is of one of the two kinds |
| `Heap.FreerRememberedIff` | libs/liballoc/liballoc.c:329-335 | after a release the freer of the two chunks is the remembered one if and only if their free bytes are both below 2 GiB or both not |
| `Heap.AtIsUnique` | libs/liballoc/liballoc.c:294-313 | a pointer handed out belongs to one block only |
| `Heap.LayoutFixesHeaders` | libs/liballoc/liballoc.c:40-73 | the layout determines every live header and alignment byte, so a layout restored is a heap restored |
| `Heap.Align` | libs/liballoc/liballoc.c:13-26 | the aligned address, and the distance stored 16 bytes before it |
| `Heap.Allocator.constructor` | libs/liballoc/liballoc.c:40-44 | an empty heap |
| `Heap.Allocator.AllocNewPage` | libs/liballoc/liballoc.c:48-73 | the new chunk header and the running total, or null |
| `Heap.Allocator.PlaceFirst` | libs/liballoc/liballoc.c:154-174 | a chunk without blocks gets its first one; the cells stand for that layout |
| `Heap.Allocator.PlaceFront` | libs/liballoc/liballoc.c:176-201 | a block goes in front of the first one |
| `Heap.Allocator.PlaceLast` | libs/liballoc/liballoc.c:208-236 | a block goes after the last one |
| `Heap.Allocator.PlaceBetween` | libs/liballoc/liballoc.c:238-268 | a block goes between two others |
| `Heap.Allocator.ScanMinors` | libs/liballoc/liballoc.c:203-271 | finds the first gap with room behind a block, or that there is none |
| `Heap.Allocator.TryChunk` | libs/liballoc/liballoc.c:154-271 | a chunk with enough free bytes serves the request from its first gap with room, or is left as it was if it has none |
| `Heap.Allocator.TryGaps` | libs/liballoc/liballoc.c:203-271 | the same for the gaps behind the first block |
| `Heap.Allocator.Extend` | libs/liballoc/liballoc.c:145-149 | a new chunk is linked behind the last |
| `Heap.Allocator.ExtendRoot` | libs/liballoc/liballoc.c:93-100 | the first chunk becomes the root |
| `Heap.Allocator.StartSearch` | libs/liballoc/liballoc.c:102-119 | the search stands at the remembered chunk if that has more free bytes than needed, else at the root, with nothing seen |
| `Heap.Allocator.Look` | libs/liballoc/liballoc.c:121-128 | the chunk is remembered if and only if it has more free bytes than any before |
| `Heap.Allocator.MoveOn` | libs/liballoc/liballoc.c:130-287 | a chunk without room leads to the next, to a restart at the root, or to a new chunk |
| `Heap.Allocator.Grow` | libs/liballoc/liballoc.c:143-149 | behind the last chunk a new one is appended and is where the search stands, or the request has failed |
| `Heap.Allocator.PassOver` | libs/liballoc/liballoc.c:130-152 | a chunk with too few free bytes is passed over; a chunk made there serves the request at once |
| `Heap.Allocator.ServeOrMoveOn` | libs/liballoc/liballoc.c:154-287 | a chunk with enough serves the request from its first gap, or is passed over if no gap can |
| `Heap.Allocator.Round` | libs/liballoc/liballoc.c:121-288 | one round keeps what is known of the chunks passed, and comes nearer the end of the search |
| `Heap.Allocator.Search` | libs/liballoc/liballoc.c:102-291 | the rounds end, with the answer the search defines |
| `Heap.Allocator.Malloc` | libs/liballoc/liballoc.c:77-292 | terminates; in terms of gaps alone: the block is in the first gap that fits of the first chunk that has one, the remembered chunk first if it has more free bytes than needed, or in front of a new chunk if there is none, or there is no block and nothing changes; the pointer is the block's; the page allocator is asked if and only if no gap fits; the freest chunk looked at is remembered; nothing is handed back |
| `Heap.Allocator.Unlink` | libs/liballoc/liballoc.c:310-318 | the block leaves its chunk's list |
| `Heap.Allocator.DropChunk` | libs/liballoc/liballoc.c:320-328 | an empty chunk leaves the list and the totals, and exactly its pages are handed back |
| `Heap.Allocator.Reconsider` | libs/liballoc/liballoc.c:329-335 | the chunk is remembered if it is freer, compared as signed 32-bit numbers |
| `Heap.Allocator.Settle` | libs/liballoc/liballoc.c:320-335 | a chunk goes if it has no block left, and is considered for being remembered if it has |
| `Heap.Allocator.Free` | libs/liballoc/liballoc.c:294-338 | null and a pointer already freed change nothing; a live pointer releases exactly its block; pages are handed back if and only if the chunk lost its last block, and then the whole chunk |
| `Heap.MallocThenFree` | libs/liballoc/liballoc.c:77-338 | the layout, the root and both totals are those from before; the page allocator gets back exactly the pages it gave, if it was asked |
| `RoundRobin.CycleConserves` | kernel/common/tasks/scheduler.c:160-209 | whatever is locked, a cycle keeps the invariant (each live task in exactly one of current, next and queue, idle in none, only the current one running) and loses nobody but a running zombie; the CPU idles only if every waiting task is locked |
| `RoundRobin.CycleIsRoundRobin` | kernel/common/tasks/scheduler.c:69-124 | with no queued task locked, a cycle is a step of round robin: a live head goes to the back, a zombie leaves, an idle CPU starts the first |
| `RoundRobin.ReapKeeps` | kernel/common/tasks/scheduler.c:161-166 | destroying a zombie keeps every other task in its place |
| `RoundRobin.ChooseKeeps` | kernel/common/tasks/scheduler.c:168-201 | each branch of the choice keeps the tasks, each once |
| `RoundRobin.SwapKeeps` | kernel/common/tasks/scheduler.c:36-49 | swapping current and next keeps both |
| `RoundRobin.CpuNextKeeps` | kernel/common/tasks/scheduler.c:51-58 | moving next to current keeps both |
| `RoundRobin.DispatchKeeps` | kernel/common/tasks/scheduler.c:203-208 | filling an empty slot with idle keeps the invariant |
| `Waiting.CycleNearer` | kernel/common/tasks/scheduler.c:69-209 | whoever else is locked, a cycle leaves the CPU busy and a waiting task that is not locked at least one position nearer if the CPU was busy, and no further back if it was idle |
| `TaskRuns.RunKeepsInv` | kernel/common/tasks/scheduler.c:151-219 | the invariant holds throughout any run of cycles, arrivals and terminations |
| `TaskRuns.WaitIsBounded` | kernel/common/tasks/scheduler.c:160-209 | the task at position k runs within k + 1 cycles, whatever arrives, terminates or is locked, as long as it is not itself locked when a cycle happens before it has run |
| `TaskRuns.StepLock` | kernel/common/tasks/scheduler.c:151-209 | a task's lock is released by its own release and changed by nothing else |
| `TaskRuns.StartedRuns` | kernel/common/tasks/scheduler.c:151-209 | in any run, a started task runs within as many cycles after its lock is released as tasks are waiting, whatever else happens |
| `TaskRuns.StatusAfter` | kernel/common/tasks/scheduler.c:117-219 | after any event: the current task of a cycle is running, the one it took the CPU from is ready, the task that terminates is a zombie, every other status is as it was |
| `TaskRuns.NeverNewAgain` | kernel/x86_64/tasks/context.c:55-58 | a task that has run is never again marked as one that has not, so its frame is saved at every later preemption |
| `TaskRuns.ContextIsLastFrame` | kernel/x86_64/tasks/context.c:33-58 | a task's saved context is always the frame last captured for it |
| `TaskRuns.ResumesLastFrame` | kernel/x86_64/interrupts.c:155-178 | a switch resumes a task with exactly the frame of its last preemption, or its first; with a heap, paging or switching lock held nothing changes |
| `TaskRuns.FirstResume` | kernel/x86_64/tasks/context.c:33-53 | in any run, a started task first runs at its entry point, on its stack, with the exact selectors of its privilege level, interrupts enabled, and every other register zero but the frame pointer |
| `TaskRuns.ZombieNeverReturns` | kernel/common/tasks/scheduler.c:160-219 | after a cycle, a zombie that was current is in no slot or queue, ever |
| `TaskRuns.TerminatedNeverReturns` | kernel/common/tasks/scheduler.c:160-219 | in any run, a task that terminates is gone after the next cycle, with its record, and never runs again unless a new task starts at its address |
| `Scheduler.TaskQueue.Assign` | kernel/common/tasks/scheduler.c:69-115 | the first unlocked runnable task leaves the linked queue, the others keep their order |
| `Scheduler.TaskQueue.Append` | kernel/common/tasks/scheduler.c:117-124 | the task joins the end of the linked queue |
| `Scheduler.Cpu.constructor` | kernel/common/tasks/scheduler.c:134-149 | an idle CPU with an empty queue; the idle task starts at its entry point, on its stack, at kernel privilege |
| `Scheduler.Cpu.QueueAssign` | kernel/common/tasks/scheduler.c:69-115 | the first unlocked runnable task leaves the queue |
| `Scheduler.Cpu.QueuePut` | kernel/common/tasks/scheduler.c:117-124 | the task joins the end, a running one made ready |
| `Scheduler.Cpu.SwapTask` | kernel/common/tasks/scheduler.c:36-49 | current and next change places |
| `Scheduler.Cpu.NextTask` | kernel/common/tasks/scheduler.c:51-58 | next becomes current |
| `Scheduler.Cpu.ReapZombie` | kernel/common/tasks/scheduler.c:161-166 | a zombie in the current slot is destroyed |
| `Scheduler.Cpu.ChooseTask` | kernel/common/tasks/scheduler.c:168-201 | the new current and next tasks and queue are those of the pure choice |
| `Scheduler.Cpu.DispatchTask` | kernel/common/tasks/scheduler.c:203-208 | the current task, or idle, is running |
| `Scheduler.Cpu.SchedCycle` | kernel/common/tasks/scheduler.c:160-209 | refines `RoundRobin.Cycle` |
| `Scheduler.Cpu.SchedStart` | kernel/common/tasks/scheduler.c:151-158 | the task joins the end of the queue, new, unlocked and with its first frame; current, next and every other task are as they were |
| `Scheduler.Cpu.SchedTerminate` | kernel/common/tasks/scheduler.c:211-219 | the running task becomes a zombie; every other task is as it was |
| `Scheduler.Cpu.ContextSave` | kernel/x86_64/tasks/context.c:55-58 | the interrupted frame is stored, unless the task has never run |
| `Scheduler.Cpu.InterruptHandler` | kernel/x86_64/interrupts.c:155-178 | refines the timer step of `TaskRuns`; returns the new current task's stored frame and leaves its address space in force, or returns the interrupted frame and changes nothing |
| `PagingBits.PathIsValid` | kernel/x86_64/memory/paging.h:34-38 | the four indices of an address are below 512 |
| `PagingBits.AddressBits` | kernel/x86_64/memory/paging.h:34-38 | the four indices and the offset, shifted to bits 39, 30, 21, 12 and 0, are the low 48 bits of the address |
| `PagingBits.PathOfRecursive` | kernel/x86_64/memory/paging.h:13 | a recursive address has exactly the indices it was built from |
| `PagingBits.PathOfAddress` | kernel/x86_64/memory/paging.h:55-57 | path to address and back is the identity, and the address is canonical |
| `PagingBits.AddressOfPath` | kernel/x86_64/memory/paging.h:34-57 | a canonical address is its path and its page offset |
| `PagingBits.CreatedEntry` | kernel/x86_64/memory/paging.c:36-47 | a created entry is present, bit 1 is set if and only if writable, bit 2 if and only if for user mode, bit 3 if and only if uncached, and no other flag; the hardware reads the page's frame back if and only if the address is below 2^52 |
| `PagingBits.CreatedReads` | kernel/x86_64/memory/paging.c:36-47 | decoded as the hardware does, an entry has exactly the properties page_create was given, and for an address below 2^52 the page's frame |
| `PagingBits.ClearedEntry` | kernel/x86_64/memory/paging.h:76 | clearing the present bit keeps the frame and the properties |
| `PageTables.WalkKept` | kernel/x86_64/memory/mem_virt.c:61-68 | one written entry leaves every walk that does not pass through it as it was |
| `PageTables.GetOrCreateKeeps` | kernel/x86_64/memory/mem_virt.c:61-82 | following or making a table keeps the tree and every translation |
| `PageTables.NestKeeps` | kernel/x86_64/memory/mem_virt.c:212-236 | after nesting, the three tables on the page's path are there; no translation changed |
| `PageTables.MapIsPointwise` | kernel/x86_64/memory/mem_virt.c:294-300 | mapping updates one page's translation and no other, in any root; the tree stays a tree and keeps its tables |
| `PageTables.MapFills` | kernel/x86_64/memory/mem_virt.c:294-300 | mapping leaves no table without an entry |
| `PageTables.PruneKeeps` | kernel/x86_64/memory/mem_virt.c:188-194 | freeing an empty table keeps the tree and every translation |
| `PageTables.UnmapIsPointwise` | kernel/x86_64/memory/mem_virt.c:302-312 | unmapping removes one page's translation and no other, and leaves no table without an entry |
| `PageTables.TablesFollowPages` | kernel/x86_64/memory/mem_virt.c:188-210 | with no table empty, there is a table at a place if and only if a mapped page lies below it: unmapping frees exactly the tables that lost their last page |
| `PageTables.UnmapUnmapped` | kernel/x86_64/memory/mem_virt.c:302-312 | unmapping a page that is not mapped changes no translation and leaves exactly the tables there were |
| `PageTables.UnmapUndoesMap` | kernel/x86_64/memory/mem_virt.c:294-312 | unmapping a page just mapped restores every translation and exactly the tables there were |
| `PageRuns.RunTranslates` | kernel/x86_64/memory/mem_virt.c:294-312 | after any run of mapping and unmapping calls, on any roots, with any free frames to draw on, every page translates as the last call about it said; the tables form a tree and none is empty |
| `PageRuns.RunTables` | kernel/x86_64/memory/mem_virt.c:188-210 | after any run there is a table at a place if and only if a page that should be mapped lies below it |
| `PageRights.MapAllows` | kernel/x86_64/memory/mem_virt.c:212-236 | after mapping, the hardware allows an access if and only if the page was mapped for it and every table already on its way allows it |
| `PageRights.MapKeepsWritable` | kernel/x86_64/memory/mem_virt.c:216-220 | mapping keeps every table writable |
| `PageRights.UnmapKeepsWritable` | kernel/x86_64/memory/mem_virt.c:302-312 | unmapping keeps every table writable |
| `PageRights.WritesFollowPage` | kernel/x86_64/memory/mem_virt.c:216-220 | where every table is writable, a mapped page can be written if and only if its own properties say so |
| `PageProps.MapHasProps` | kernel/x86_64/memory/mem_virt.c:212-300 | mapping gives the page's entry exactly its properties, each table missing on the way those with writing added, and leaves every other entry's as they were, in any root |
| `PageProps.UnmapHasProps` | kernel/x86_64/memory/mem_virt.c:302-312 | unmapping keeps the properties of every other page and of every table that stays |
| `PageProps.MappedAllows` | kernel/x86_64/memory/mem_virt.c:212-300 | so the hardware then allows an access to the page if and only if it was mapped for it and each table already there gives it |
| `RightsRuns.RunProps` | kernel/x86_64/memory/mem_virt.c:212-312 | after any run, every entry on the way to a page has the properties of the last mapping of the page, or, for a table, of the first mapping below it since it was last freed |
| `RightsRuns.RunAllowsIff` | kernel/x86_64/memory/mem_virt.c:212-312 | after any run, the hardware allows an access to a page if and only if the last call about it mapped it for that access and each table on its way was made for that access |
| `RightsRuns.KernelThenUser` | kernel/x86_64/memory/mem_virt.c:212-300 | a user page mapped after a kernel page with the same upper indices is mapped, with the user bit set, and closed to user mode |
| `RecursiveSlots.PathOfRecursiveAddress` | kernel/x86_64/memory/paging.h:13 | the index list of a recursive address |
| `RecursiveSlots.LinksAreRecursive` | kernel/x86_64/memory/mem_virt.c:213-215 | both recurse links pass the code's test, and the slot extracted from them is 510 or 509 |
| `RecursiveSlots.MirrorIsNotRecursive` | kernel/x86_64/memory/mem_virt.c:213-215 | no address in the mirror of physical memory below the recursive slots passes it |
| `RecursiveSlots.RecursiveAddressesReach` | kernel/x86_64/memory/mem_virt.c:224-228 | the four 64-bit addresses computed from a recurse link and a virtual address reach, by the hardware walk, exactly the root behind the link and the PDPT, PD and PT on the address's path in it |
| `RecursiveSlots.RecursiveWalk` | kernel/x86_64/memory/mem_virt.c:224-228 | the walk behind it, on index lists |
| `RecursiveSlots.KernelWalkKept` | kernel/x86_64/memory/mem_virt.c:423-460 | walks into the kernel half, through tables of no user tree, are not changed |
| `Vmm.Manager.GetOrCreateIn` | kernel/x86_64/memory/mem_virt.c:61-82 | the entry's table, made and zeroed if missing |
| `Vmm.Manager.GetOrCreateEntry` | kernel/x86_64/memory/mem_virt.c:76-82 | the same for the table at a 64-bit virtual address; a write the hardware would refuse is recorded |
| `Vmm.Manager.MostNestedRecursive` | kernel/x86_64/memory/mem_virt.c:224-228 | from a recurse link, the recursive branch makes exactly the tables of the plain nesting, writable and otherwise with the page's properties; the address it returns reaches the last one; no write is refused if the link's slot is writable |
| `Vmm.Manager.MostNestedDirect` | kernel/x86_64/memory/mem_virt.c:229-233 | the other branch makes the same tables, with the same properties |
| `Vmm.Manager.MostNested` | kernel/x86_64/memory/mem_virt.c:212-236 | whichever branch the test of the table's address takes, the same tables are made |
| `Vmm.Manager.MapPageImpl` | kernel/x86_64/memory/mem_virt.c:294-300 | refines the plain mapping; a write is refused if and only if the link's slot is not writable |
| `Vmm.Manager.SetSlot` | kernel/x86_64/memory/mem_virt.c:427-433 | entry 509 of the active root is set, and the write is allowed |
| `Vmm.Manager.MapPage` | kernel/x86_64/memory/mem_virt.c:423-437 | for the active or another root: one translation changes, to the frame the hardware reads from the created entry; its entry has exactly the properties given and the hardware allows an access if and only if they and the tables already there do; every other entry keeps its properties; slot 509 ends clear; the kernel half is as it was; a write would be refused if and only if the page is read-only and the root another |
| `Vmm.Manager.IsTableFree` | kernel/x86_64/memory/mem_virt.c:121-127 | true if and only if none of the 512 entries is present |
| `Vmm.Manager.FreeIfNecessary` | kernel/x86_64/memory/mem_virt.c:188-194 | refines the plain pruning of one table; an empty table's frame, and no other, is given back |
| `Vmm.Manager.GetTableAddress` | kernel/x86_64/memory/mem_virt.c:157-173 | through a recurse link: the virtual address of the table at a depth, and the tables made on the way |
| `Vmm.Manager.GetTableDirect` | kernel/x86_64/memory/mem_virt.c:174-179 | by physical address: depth 1 makes all three tables and gives the last one, unlike the recursive branch |
| `Vmm.Manager.FreeIfNecessaryTables` | kernel/x86_64/memory/mem_virt.c:199-210 | prunes bottom up, each table by its own address, and gives back exactly the tables that leave the tree |
| `Vmm.Manager.ClearPage` | kernel/x86_64/memory/mem_virt.c:302-307 | the page's entry is cleared and the tables above it are there |
| `Vmm.Manager.UnmapPageImpl` | kernel/x86_64/memory/mem_virt.c:302-312 | refines the plain unmapping; always true |
| `Vmm.Manager.UnmapPage` | kernel/x86_64/memory/mem_virt.c:443-460 | one translation is removed; every other page and every table that stays keep their properties; no write would be refused; slot 509 ends clear; the kernel half is as it was; each table is still in the tree or was given back, and what was given back is not in it |
| `Vmm.Manager.VirtToPhys` | kernel/x86_64/memory/mem_virt.c:87-107 | for a mapped page its frame plus the offset; in general the last entry's frame, present or not |
| `SlotRights.WritableIff` | kernel/x86_64/memory/mem_virt.c:224-228 | at each of the four recursive addresses the hardware allows writing if and only if the table is there and the slot gone through is writable |
| `SlotRights.MapEditIff` | kernel/x86_64/memory/mem_virt.c:425-433 | mapping into another root through slot 509, opened with the page's properties: each write of the call, in the state it happens in, from the root's entry down to the page's own, is allowed if and only if the page is writable, whichever tables are there |
| `SlotRights.UnmapEditAllowed` | kernel/x86_64/memory/mem_virt.c:443-460 | unmapping from another root is allowed every write, those that free tables included, whichever tables are there |
| `SlotRights.ActiveEditAllowed` | kernel/x86_64/memory/mem_virt.c:423-460 | in the active root every write of either call is allowed |
| `FrameBitmap.SetBitSets` | kernel/x86_64/memory/mem_phys.c:15-17 | setting a bit sets that one and no other |
| `FrameBitmap.ClearBitClears` | kernel/x86_64/memory/mem_phys.c:21-23 | clearing a bit clears that one and no other |
| `FrameBitmap.FirstFreeStartingFrom` | kernel/x86_64/memory/mem_phys.c:35-43 | the least clear bit from the start word on, below 32 times the number of whole words, or -1 if there is none |
| `FrameBitmap.FirstFreeIsUnique` | kernel/x86_64/memory/mem_phys.c:35-43 | that answer is unique |
| `Frames.AddressRoundTrip` | kernel/x86_64/memory/mem_phys.c:234-251 | an address leads back to its block if and only if the block is below 2^20 |
| `Frames.AddressesCollide` | kernel/x86_64/memory/mem_phys.c:234 | two blocks share an address if and only if they agree modulo 2^20 |
| `Frames.PhysicalMemory.MapSet` | kernel/x86_64/memory/mem_phys.c:15-17 | the word array with that bit set |
| `Frames.PhysicalMemory.MapUnset` | kernel/x86_64/memory/mem_phys.c:21-23 | the word array with that bit cleared |
| `Frames.PhysicalMemory.UpdateBlocks` | kernel/x86_64/memory/mem_phys.c:100-103 | the increment is added to and taken from the counters modulo 2^64 |
| `Frames.PhysicalMemory.FirstFree` | kernel/x86_64/memory/mem_phys.c:47-52 | the least clear bit, or -1 |
| `Frames.PhysicalMemory.Alloc` | kernel/x86_64/memory/mem_phys.c:225-235 | fails if and only if the counters say so or every block looked at is used; else takes the least free block and gives its 32-bit address |
| `Frames.PhysicalMemory.FreeBlock` | kernel/x86_64/memory/mem_phys.c:247-253 | clears the block's bit; the counters move by 2^32 - 1 |
| `Frames.RunKeepsInv` | kernel/x86_64/memory/mem_phys.c:225-253 | over any run on memory whose free blocks are below 2^20: the used blocks are those used at the start and the live ones, which are distinct and disjoint from them; used + usable is constant modulo 2^64 |
| `Frames.TakenIsNew` | kernel/x86_64/memory/mem_phys.c:225-235 | no address is handed out while it is held |
| `FrameRuns.NeverRepeatsIff` | kernel/x86_64/memory/mem_phys.c:225-253 | with the counters of real memory: no run ever hands out a held address if and only if no two free blocks agree modulo 2^20, or the counters refuse everything from the start |
| `FrameRuns.NeverOverlapsIff` | kernel/x86_64/memory/mem_phys.c:225-253 | with the counters of real memory: no run ever hands out memory whose bit is set, held or reserved, if and only if every free block is below 2^20, or the counters refuse everything from the start |
| `FrameRuns.FreeMemoryIff` | kernel/x86_64/memory/mem_phys.c:200-253 | for memory with its first blocks reserved and the others free: no held address if and only if there are at most 2^20 free blocks, no memory in use if and only if there are at most 2^20 blocks in all |
| `FrameRuns.RefusesIff` | kernel/x86_64/memory/mem_phys.c:226 | in any run, with a free block to be found, a request is refused if and only if the counters, moved by what the run took and gave, have met |
| `FrameRuns.RefusesAtHalf` | kernel/x86_64/memory/mem_phys.c:100-103 | without frees that is when half of the difference between usable and used at the start is taken |
| `FrameRuns.NotRefusedAfterFree` | kernel/x86_64/memory/mem_phys.c:247-253 | once the counters have moved by more than was usable, as after any free of real memory, the usable counter has wrapped and nothing is refused |
| `Frames.AllGivenBack` | kernel/x86_64/memory/mem_phys.c:225-253 | when everything is given back the used blocks are those from the start |
| `Frames.UsedCountIff` | kernel/x86_64/memory/mem_phys.c:100-103 | modulo 2^32 the used count is the number held; as a 64-bit number if and only if the number of frees is a multiple of 2^32 |
| `LinkedList.Prepend` | libs/linkedlist/linkedlist.c:27-36 | a new node in front; links in both directions |
| `LinkedList.Append` | libs/linkedlist/linkedlist.c:38-51 | a new node at the end |
| `LinkedList.GetHead` | libs/linkedlist/linkedlist.c:53-57 | the first node, from any node |
| `LinkedList.DeleteHead` | libs/linkedlist/linkedlist.c:71-85 | the first node leaves, if there is one |
| `LinkedList.DeleteTail` | libs/linkedlist/linkedlist.c:87-99 | the last node leaves; not for a list of one, where the code dereferences null |
| `LinkedList.GetSize` | libs/linkedlist/linkedlist.c:101-113 | the number of nodes |
| `LinkedList.InsertAt` | libs/linkedlist/linkedlist.c:127-151 | every index from 0 to the size inserts there; any other changes nothing |
| `LinkedList.DeleteAt` | libs/linkedlist/linkedlist.c:153-174 | every index below the size removes that node; the size itself removes the last node; any other changes nothing |
| `LinkedList.FindNodeWith` | libs/linkedlist/linkedlist.c:176-189 | the first node that holds the data, or null if none does |
| `LinkedList.FindAt` | libs/linkedlist/linkedlist.c:191-209 | the node at the index, or null |
| `LinkedList.Concatenate` | libs/linkedlist/linkedlist.c:215-220 | one list after the other |
| `RingBuffer.EmptyAndFull` | libs/ringbuf/ringbuf.c:83-91 | the ring is a queue of at most one item less than its slots, and the two tests say when it is empty and full |
| `RingBuffer.PushedAppends` | libs/ringbuf/ringbuf.c:48-50 | moving the head appends what the slot holds |
| `RingBuffer.PoppedRemoves` | libs/ringbuf/ringbuf.c:61-63 | moving the tail removes the oldest |
| `RingBuffer.RingBuf.constructor` | libs/ringbuf/ringbuf.c:21-30 | an empty queue |
| `RingBuffer.Init` | libs/ringbuf/ringbuf.c:21-30 | null without a buffer or with size 0, else an empty queue over the buffer |
| `RingBuffer.RingBuf.Clear` | libs/ringbuf/ringbuf.c:38-43 | an empty queue |
| `RingBuffer.Put` | libs/ringbuf/ringbuf.c:45-56 | error on null; full if and only if there are max - 1 items; else the item joins the queue |
| `RingBuffer.Get` | libs/ringbuf/ringbuf.c:58-69 | error on null; empty if and only if there are none; else the oldest leaves |
| `RingBuffer.Peek` | libs/ringbuf/ringbuf.c:71-81 | the oldest is shown and stays |
| `RingBuffer.GetSize` | libs/ringbuf/ringbuf.c:98-106 | the number of items if and only if the ring is not full; a full ring reports all its slots |
| `RingBounds.InsideIff` | libs/ringbuf/ringbuf.c:45-69 | every slot that any run of puts and gets touches is in a buffer of n slots if and only if max is at most n, or is 1, when nothing is ever put |
| `RingBounds.ChannelOutgrowsBuffer` | kernel/common/tasks/channel.c:54-59 | a channel as made, with max the buffer's size in bytes, has a run that leaves its 32 slots |
| `Channels.Registry.Exists` | kernel/common/tasks/channel.c:35-50 | true if and only if the channel is registered |
| `Channels.Registry.FindByAgentName` | kernel/common/tasks/channel.c:95-110 | the channel registered first under the name, or null |
| `Channels.Registry.Register` | kernel/common/tasks/channel.c:62-66 | the channel joins the end of the linked registry |
| `Channels.Registry.Remove` | kernel/common/tasks/channel.c:15-33 | the channel's first entry leaves the linked registry, the others keep their order |
| `Channels.Registry.Transmit` | kernel/common/tasks/channel.c:112-124 | each refusal, in the order of the tests, if and only if its test fails first; full if and only if all but one slot hold packages; sent, and then the package joins the recipient's queue, if and only if nothing else; otherwise nothing changes |
| `Channels.Registry.Receive` | kernel/common/tasks/channel.c:126-135 | the oldest package leaves; each refusal if and only if its test fails first, and empty if and only if there is none |
| `Channels.Registry.PeekAt` | kernel/common/tasks/channel.c:137-146 | the oldest package is shown and stays; the refusals as for receiving |
| `Ipc.BootIsInitial` | kernel/common/tasks/channel.c:54-69 | tasks with new, empty channels, each ring's max being its number of slots, are a state runs can begin in |
| `Ipc.BeginKeeps` | kernel/common/syscall.c:51-61 | beginning any call, refused or not, keeps the invariant |
| `Ipc.MoveKeeps` | kernel/common/tasks/channel.c:112-146 | so does every step of any task: spinning, testing, writing or reading the slot, moving the index, releasing, copying out |
| `Ipc.AlwaysMoves` | kernel/common/syscall.c:80-101 | a task in a call can always take its next step: no step meets a freed package |
| `Ipc.RunKeepsInv` | kernel/common/syscall.c:51-114 | the invariant holds in every state any interleaving reaches |
| `Ipc.ExactlyOnceInOrder` | kernel/common/tasks/channel.c:112-135 | in every reachable state what a task was given is a prefix of what was taken from its ring, itself a prefix of what was put in; at most one message is between, the rest are in the ring; the messages of sends whose caller was told they succeeded are those put in, but for at most one still to be reported |
| `Ipc.MutualExclusion` | libs/neutrino/lock.c:17-30 | two tasks are never between the lock and the release of one ring |
| `Ipc.ReplyIsOldest` | kernel/common/syscall.c:80-101 | a receive replies with the oldest undelivered message, with the bytes it was sent with; a peek with the oldest one's size, and consumes nothing |
| `Ipc.TurnsBackIff` | kernel/common/tasks/channel.c:126-146 | a receive or a peek that tests its ring turns back if and only if everything sent to the task so far has been taken out |
| `Ipc.TurnedBackReply` | kernel/common/syscall.c:80-110 | it then reports success, leaves the caller's payload and size as they were, releases the lock and changes nothing else |
| `Ipc.HolderReleases` | libs/neutrino/lock.c:17-30 | in any run, by the time a task that holds a ring lock has taken four more steps of its own, the lock has been free |
| `IpcCalls.FindsFirst` | kernel/common/tasks/channel.c:95-110 | a name is found if and only if a channel is registered under it, and means the first one |
| `IpcCalls.BeginOutcome` | kernel/common/syscall.c:51-114 | which code each refused call gets, in terms of the names and flags, and what each other one begins with |
| `IpcCalls.SendReports` | kernel/common/syscall.c:51-75 | in any run, a send reports success if and only if one of its own steps put its message, once, in the ring of the channel first under the name; otherwise none of its steps put anything anywhere |
| `IpcCalls.SendTurnsBackIff` | kernel/common/tasks/channel.c:112-124 | a send that tests the ring turns back if and only if all but one slot hold messages sent and not yet taken out |
| `IpcCalls.CallReturns` | libs/neutrino/lock.c:17-30 | in any run, a call has returned by the time its task has taken six steps that did not find a lock held |
| `InitrdImage.LeRoundTrip` | utils/make-initrd.c:39-40 | a number written in enough bytes reads back |
| `InitrdImage.HeaderName` | utils/make-initrd.c:22 | the name read from a header is the one written, whatever follows its terminator |
| `InitrdImage.HeaderNumbers` | utils/make-initrd.c:23-34 | offset and length read back |
| `InitrdImage.ImageDescribes` | utils/make-initrd.c:14-50 | in the image packed from files, every header names its file and locates exactly its contents |
| `InitrdImage.RegionsAreDisjoint` | utils/make-initrd.c:18-33 | files lie one after another without overlap |
| `InitrdImage.FillHeaders` | utils/make-initrd.c:20-35 | the first loop fills the header of each file and leaves the others |
| `InitrdImage.Pack` | utils/make-initrd.c:14-50 | writes exactly that image |
| `Initrd.Ramdisk.constructor` | kernel/common/fs/initrd.c:59-115 | parsing a packed image gives back every name, length and content |
| `Initrd.Ramdisk.Read` | kernel/common/fs/initrd.c:20-28 | the clipped slice of the file, when the 32-bit sum does not wrap; always the number of bytes the code computes |
| `Initrd.CountIsClippedIff` | kernel/common/fs/initrd.c:23-24 | the number of bytes is the clipped one if and only if the sum does not wrap, or wraps past the file's length, or the offset is past the end |
| `Initrd.Ramdisk.ReadDir` | kernel/common/fs/initrd.c:30-44 | the entry at an index; the root's first is `dev` |
| `Initrd.Ramdisk.FindDir` | kernel/common/fs/initrd.c:46-55 | the first node of that name, or none; `dev` in the root is the device node |
| `Initrd.ListThenFind` | kernel/common/fs/initrd.c:30-55 | listing from index 1 gives each file once and ends; looking up the listed name gives that file |
| `Digits.ReadNumeral` | libs/libc/string.c:111-135 | reading back the printed numeral gives the number, in any base from 2 to 16 |
| `Digits.NoLeadingZero` | libs/libc/string.c:111-135 | the first digit is 0 if and only if the number is |
| `Digits.DigitCount` | libs/libc/string.c:122-126 | at most n digits if and only if the number is below base to the n |
| `Digits.WordDigits` | libs/libc/string.c:111-135 | a 64-bit number has at most 20 decimal and 16 hexadecimal digits |
| `Digits.ScratchFitsIff` | libs/libc/string.c:111-126 | the 32 places of the scratch buffer are enough for every 64-bit number if and only if the base is at least 4 |
| `Digits.Fill` | libs/libc/string.c:122-126 | the first loop leaves the digits, least significant first |
| `Digits.TurnRound` | libs/libc/string.c:128-132 | the second loop leaves them reversed and terminated |
| `Digits.Ltoa` | libs/libc/string.c:111-135 | the buffer holds the numeral; zero and bases above 16 give 0 |
| `Digits.LtoaSigned` | libs/libc/string.c:142-149 | a sign and the magnitude, for every 64-bit number; a base above 16 changes nothing |
| `Digits.ReadSignedNumeral` | libs/libc/string.c:142-149 | signed numerals read back, the most negative one included |
| `Calendar.YearStep` | libs/neutrino/time.h:10-12 | the closed Gregorian day count grows by each year's length |
| `Calendar.MonthStep` | libs/neutrino/time.h:13-16 | the closed month count grows by each month's length, and ends at the year's |
| `Calendar.AddYears` | libs/neutrino/time.c:48-49 | the first loop adds the closed day count of the years from 1970 on, modulo 2^64 |
| `Calendar.AddMonths` | libs/neutrino/time.c:51-52 | the second adds that of the months |
| `Calendar.DateTimeToTimestamp` | libs/neutrino/time.c:45-60 | for a valid date 86400 times the closed-form day number plus the second of the day, modulo 2^64; for any year and day the same with no year before 1970 |
| `Calendar.TimestampsGrow` | libs/neutrino/time.c:45-60 | a later date or time has a greater timestamp |
| `Calendar.TimestampsDiffer` | libs/neutrino/time.c:45-60 | different dates or times have different timestamps |
| `Calendar.NextDayIsNext` | libs/neutrino/time.c:45-60 | the next calendar day has the next day number |
| `Calendar.EverySecond` | libs/neutrino/time.c:45-60 | every number of seconds is the timestamp of a valid date and time |
| `Calendar.TimestampFitsIff` | libs/neutrino/time.c:45-60 | that is the number itself if and only if the date and time are not after 07:00:15 on 9 November 584554051223 |

## Left out

- Heap.Allocator.Malloc: not stated for requests so close to 4 GiB that the 32-bit page arithmetic wraps; `HeapLayout.FreshChunkFitsIff` says which those are.
- PagingBits.CreatedEntry: bit 3, which the kernel sets to disable caching, is write-through on x86, where cache disable is bit 4; caching is not modelled.
- Heap.Allocator.Free: stated for null, live and once-freed pointers; on any other address the code reads bytes that mean nothing to the heap.
- Vmm.Manager.MapPage: the lower half of an address space, after `init_vmm`, whose tables are all writable, with enough physical frames for the missing tables. Writes the hardware would refuse if it checked supervisor writes are recorded in `refused` and take effect all the same. Frames that pruning gives back go to `freed`, not into `frames`; `PageRuns` lets the next call draw on them.
- Vmm.Manager.VirtToPhys: requires the tables on the way, without which the code reads unmapped memory. For a root that is not active the code follows the root's physical address as if it were a virtual one; the model reads the frame, as where physical memory is mapped at its own addresses.
- Vmm.Manager.GetTableAddress: requires the first table, which the code follows without making it; `Vmm.Manager.GetTableDirect` is the branch for tables reached by physical address.
- Frames.PhysicalMemory.FreeBlock: requires the bit to lie in the map, as the code does.
- LinkedList.DeleteAt: excludes index 1 on a list of one node, where the code dereferences null.
- LinkedList.DeleteTail: excludes a list of one node, for the same reason.
- RingBuffer.RingBuf.constructor: for a buffer of at least one slot; `RingBuffer.Init` is the call that tests for that.
- RingBuffer.Init: given the buffer's true number of slots; `RingBounds.InsideIff` is about any other.
- Channels.Registry.Transmit: one call without others in between; `Ipc` has the interleavings.
- Ipc.BootIsInitial: the kernel gives a new ring `max` 256 over 32 slots, which no state here has; each ring's `max` is its number of slots. `RingBounds.InsideIff` says why that is needed and `RingBounds.ChannelOutgrowsBuffer` that the kernel's channels can leave their buffers.
- Ipc.RunKeepsInv: the set of tasks and channels is fixed; creating and destroying channels while calls are under way is not modelled. Every task owns one channel, as task creation makes it.
- Digits.Ltoa: requires the number to fit the 32 places of the scratch buffer, which below base 4 not every one does (`Digits.ScratchFitsIff`); base 0 and base 1, with which the code divides by zero or does not end, are excluded.
- Digits.LtoaSigned: the same for the magnitude.
- Calendar.DateTimeToTimestamp: requires a month from 1 to 12; for others the code reads past the table of month lengths.
- Initrd.Ramdisk.constructor: headers are read as values and relocated there, not in the image's own bytes.
- TaskRuns.FirstResume: the kernel stack of system calls and the GS base are not part of a frame.
- Scheduler.Cpu.SwapTask: current and next are not locked; on a locked one the code waits for another CPU.
- Scheduler.Cpu.NextTask: next is not locked, for the same reason.
- Scheduler.Cpu.SchedTerminate: not called while the idle task is current; the code would make it a zombie.
- Scheduler.Cpu.InterruptHandler: a timer interrupt does not land while its own CPU holds `gtq_lock`, where the code would wait for ever. Switching the address space is the assignment of the root table; the lock of a space is not modelled.
- Huge pages, the physical mirror, TLB and CR3 reloads, and other CPUs: the hardware is the page walk of one CPU.
- CPU affinity: both outcomes of the affinity test assign the same task.
- `calloc` and `realloc`; `pmm_alloc_series` and `pmm_free_series`; `vmm_find_free_heap_series` and `vmm_allocate_heap`: not needed by the results here.
- `timestamp_to_datetime`: its unparenthesised macros and unsigned comparisons do not make it the inverse.
- Boot, ports, timers, ACPI, PCI, display, serial, the ELF loader, handles, address-space destruction and the user-space wrappers.
