# Aegis OS: verification of the kernel's and servers' core

This project models the stateful core of the Aegis microkernel and its servers in
Dafny and proves what its data structures are for. Run
`dafny verify dfyconfig.toml` to check all of it.

| part | files | source |
|---|---|---|
| scheduler and timer tick | `IntrusiveList`, `Sched*`, `Scheduler` | `kernel/src/sched.c`, `kernel/src/timer.c` |
| bump allocator, page tables, memory areas | `Bits`, `Heap`, `PageTables`, `PageTableProofs`, `PageEntries`, `LiteralLeaf`, `LiteralCalls`, `Vma`, `MemoryManager`, `MmRuns` | `kernel/src/mm.c` |
| RAM filesystem | `VfsTable`, `VfsFiles`, `VfsRuns`, `VfsLimits`, `VfsWitness`, `VfsListing`, `VfsReplies`, `Vfs` | `servers/vfs/vfs.c` |
| ramdisk writer and reader | `RamdiskFormat`, `RamdiskProofs`, `RamdiskLayout`, `Ramdisk` | `scripts/mkramdisk.py`, `kernel/src/ramdisk.c` |
| ELF loader | `ElfMemory`, `ElfProofs`, `ElfImage`, `ElfLoader` | `kernel/src/elf.c` |
| shell line editor and tokenizer | `ShellWords`, `ShellEditor`, `Shell` | `servers/shell/shell.c` |
| keyboard driver | `KeyboardQueue`, `Keyboard` | `kernel/src/keyboard.c` |
| IPC endpoints | `Mailboxes`, `Ipc` | `kernel/src/ipc.c` |

`Words`, `Bytes` and `LittleEndian` hold the machine words, C strings and numbers that
several parts use.

## How it is built

Each part has the same three layers. A class (or, for the writer and the loader, a set
of methods over arrays) has the source's statics as fields and its loops as loops. A
machine on values says what each call does to the state, pointer by pointer or slot by
slot; every method is proved to do exactly that. Lemmas then relate that machine to a
simple meaning: task queues as sequences, page tables as a map from page numbers to
entries, the file table as a map from names to contents, the key ring and the
mailboxes as logs of what went in and came out.

Beside these relations stand laws in the source's own numbers and bytes: the fields and
lists after each scheduler call (`SchedLaws`), page-table words and their bits
(`PageEntries`), the words of a reply (`VfsReplies`), the byte layouts of ELF and ramdisk
images (`ElfImage`, `RamdiskLayout`), the characters of the key tables, and the answers of
the endpoints by their logs.

The scheduler's middle layer keeps `head`, `tail` and `next` as slot numbers. `Rel`
says that the three linked lists are exactly three sequences; `Inv` says that the
sequences are duplicate-free, disjoint, hold only READY tasks of their priority, that
the current task is in none of them, and that ids are unique.

## Where the code does not do what it is for

The model follows the code. Where a property fails, there is an input on which it
fails and the exact condition under which it holds:

- `task_set_priority` looks for the predecessor by scanning every slot, and slots that
  left a queue keep their old link. It keeps the lists intact exactly under
  `PriorityGuard` (`SetPriorityKeepsInvIff`); `StaleLinkBreaksSetPriority` is a run
  from boot on which it does not.
- `task_wake` of the current task queues the running task (`WakeCurrentBreaks`), which
  happens six calls after boot (`WakeFindsCurrent`); three calls later a slot links to
  itself (`WakesLoop`). A run leaves valid lists throughout exactly when no call of it does
  either of these (`RunStaysValidIff`).
- `task_yield` and `task_sleep` do not mark the task they choose RUNNING, so the next
  yield, timer interrupt or start that chooses another does not queue it again:
  `BootStrandsIff` says over every guarded run exactly which calls strand a task, and that
  a task is left RUNNING beside the current one exactly by a second `sched_start`
  (`SecondYieldStrands`, `LinkedStaysStranded`, `SecondYieldStrandsTaskTwo`). docs/architecture.md line 40 calls
  the scheduler round-robin; that is proved of the variant in which dispatch marks the
  task as `sched_start` does (`mark` true). `mark` false is the code as written, and
  everything about list shape, order and sleeping is proved for both.
- `mm_page_map`, `unmap` and `walk` find the leaf table and then index the root. The
  page-table theorems take the leaf as `pt_page->entries[pt_idx]`, which is a departure
  from the text of lines 100, 120 and 139. `LiteralCalls` is about the text as it
  stands, and says of each call and each page exactly when the page's entry is kept: pages
  with equal last index share one entry, pages below the overwritten root entry are
  redirected, and the link of a new table is itself the entry of the pages that share its
  word (`MapLiteralIff`, `FailedMapLiteralIff`, `WalkLiteralIff`, `UnmapLiteralIff`,
  `ProtectLiteralIff`). Mapping destroys the tree (`LiteralBreaksForest`), and the second
  iteration of `mm_init`'s loop follows a pointer outside the heap.
- `align_up` wraps for huge offsets (`AlignUpWrapsIff`); the allocator's promises hold
  when neither it nor the end of the block wraps (`AllocInsideIff`, over runs
  `RunInsideIff`); a request of 2^64 - 1
  bytes is granted and moves the offset back (`WrappedGrant`, `WrapOverlaps`).
- `handle_create` stores at most 63 bytes of a name and looks up all of it
  (`CreatedIsFoundIff`, `CreateKeepsDistinctIff`, and `LongNameLost` from boot).
  `handle_delete` does not clear the data, so a new file can grow into the bytes of a
  deleted one (`DeletedBytesReturn`, `DeletedBytesRead`, `DeleteCleanIff`): deleting
  /hello.txt, creating /a and growing it to five bytes reads back Hello (`HelloReturns`). `StepRefinesIff` says of every request exactly when it does what it
  does to a map of names: growth must be over zeros of the file's own slot, which it is in
  every slot that no delete has freed (`GrowsOverZeros`). Transfers over 512 bytes, and reads or writes past the file area
  after 64-bit clipping, leave the arrays; the model answers them with `OutOfBounds` and
  `CopyOkIff` says exactly which requests do not (`ReadPastEnd`, `ReadOutOfBuffers`). The bytes of a write are the message's
  data, so they begin with the path (`ReadAfterWrite`).
- The ramdisk writer's entry loop uses the size of the last file of the walk for every
  entry. `own` false is that code, `own` true the variant that uses the size the loop
  binds. Files written by the code read back exactly when all have one size
  (`LiteralReadsIff`; `TwoSizesLost` is an input on which they do not).
- The keyboard's shift table lacks the backspace of the plain table, so every later
  row sits one place early: shifted letters give their right neighbour
  (`CapitalsOneEarly`) and pressing left shift types a bar (`LeftShiftTypesIff`).
- docs/architecture.md says `ipc_recv` blocks until a message arrives; the code returns
  -2, and the model follows the code.

## Model

| member | source | states |
|---|---|---|
| IntrusiveList.ListUnique | kernel/src/sched.c:63-70 | head, tail and links determine the queue: two sequences read off the same list are equal |
| IntrusiveList.ListAppend | kernel/src/sched.c:63-70 | linking an absent slot at the tail gives the list of the queue followed by it, empty or not |
| IntrusiveList.ListPop | kernel/src/sched.c:130-135 | following the head's link gives the list of the rest, and the link is 0 exactly for a single element |
| IntrusiveList.ListUnlink | kernel/src/sched.c:94-104 | bypassing an element through its predecessor gives the list without it, the tail moved back if it was last |
| Scheduler.Scheduler.SchedInit | kernel/src/sched.c:12-26 | the state after sched_init, with links and wake times left as they were |
| Scheduler.Scheduler.TaskCreatePriority | kernel/src/sched.c:32-78 | over arrays, the step Create; returns the new id, or 0 when nothing was created |
| Scheduler.Scheduler.TaskCreate | kernel/src/sched.c:28-30 | create at normal priority, with the new id or 0 when nothing was created |
| Scheduler.Scheduler.TaskSetPriority | kernel/src/sched.c:80-121 | over arrays, with both scans, the step SetPriority |
| Scheduler.Scheduler.TaskYield | kernel/src/sched.c:123-147 | over arrays, the step Yield (mark false as written) |
| Scheduler.Scheduler.TaskSleep | kernel/src/sched.c:158-174 | over arrays, the step Sleep, with the early return that leaves the current task BLOCKED |
| Scheduler.Scheduler.TaskWake | kernel/src/sched.c:185-202 | over arrays, the step Wake |
| Scheduler.Scheduler.SchedTick | kernel/src/sched.c:204-214 | over arrays, slot by slot, the step Tick |
| Scheduler.Scheduler.SchedStart | kernel/src/sched.c:220-242 | over arrays, the step Start |
| Scheduler.Scheduler.TimerHandler | kernel/src/timer.c:25-29 | one interrupt counts a tick and is the tick followed by the yield |
| SchedRefine.CreateRefines | kernel/src/sched.c:32-78 | creation on linked lists is creation on sequences: the new slot at the tail of its queue |
| SchedRefine.YieldRefines | kernel/src/sched.c:123-147 | yield takes the head of the current priority's sequence and queues the old task at the tail if it was RUNNING |
| SchedRefine.SleepRefines | kernel/src/sched.c:158-174 | sleep blocks the current task and takes the head if there is one |
| SchedRefine.WakeRefines | kernel/src/sched.c:185-202 | wake appends the first BLOCKED slot of that id to its queue |
| SchedRefine.StartRefines | kernel/src/sched.c:220-242 | start takes the head of the highest non-empty priority and marks it RUNNING |
| SchedTick.TickRefines | kernel/src/sched.c:204-214 | one tick on links is the closed form: exactly the slots with wake time 1 wake, in slot order, and the other countdowns lose one |
| SchedTick.BlockedById | kernel/src/sched.c:207-208 | waking a due slot by its id wakes that slot, because ids are unique |
| SchedTick.TimerRefines | kernel/src/timer.c:25-29 | the interrupt on links is the closed-form tick and the sequence yield, although the tick may queue the current task in between |
| SchedPriority.SetPriorityRefines | kernel/src/sched.c:80-121 | under the guard, re-prioritising takes the task out of its sequence (head, middle or tail), keeps the order of the rest and appends it to the new one |
| SchedPriority.SetPriorityBreaks | kernel/src/sched.c:94-104 | outside the guard no well-formed sequences describe the lists afterwards |
| SchedPriority.SetPriorityKeepsInvIff | kernel/src/sched.c:80-121 | task_set_priority keeps the list invariant if and only if the guard holds |
| SchedLaws.BootIs | kernel/src/sched.c:12-26 | at boot 64 empty slots of priority 1, three empty lists, ids from 1, nothing current or running |
| SchedLaws.SetPrioritySets | kernel/src/sched.c:80-107 | in any valid state, a live task named by its id gets the priority asked for, or 2 if that is higher, and nothing else of the task table changes |
| SchedLaws.SetPriorityMoves | kernel/src/sched.c:88-116 | under the guard, a task that gets another priority goes to the end of the list of that priority and leaves its old list with the rest in order; the third list stays |
| SchedLaws.SetPriorityLists | kernel/src/sched.c:88-116 | so afterwards it is on the list of its new priority, as its tail, and on no other |
| SchedLaws.SetPriorityUnknown | kernel/src/sched.c:83-84 | an id that no slot has changes nothing |
| SchedLaws.CreateFills | kernel/src/sched.c:32-78 | the first empty slot gets the next id, READY, the priority cut at 2, and the end of the list of that priority |
| SchedLaws.CreateRefuses | kernel/src/sched.c:33-48 | without an entry function or an empty slot from 1 to 63 nothing changes |
| SchedLaws.WakeQueues | kernel/src/sched.c:185-202 | waking the id of a BLOCKED task makes that task READY with no wake time, at the end of the list of its priority |
| SchedLaws.WakeNothing | kernel/src/sched.c:186-187 | an id no BLOCKED task has wakes nothing |
| SchedLaws.YieldRotates | kernel/src/sched.c:123-147 | a yield makes the head of the current priority's list current and, if the old task was RUNNING, makes it READY at the end of that list; with nothing there, nothing changes |
| SchedLaws.SleepBlocks | kernel/src/sched.c:158-174 | the current task is BLOCKED for ms, and the head of its priority's list, if any, is current |
| SchedLaws.StartRuns | kernel/src/sched.c:220-242 | the head of the highest non-empty list is current and RUNNING |
| SchedLaws.StartIdle | kernel/src/sched.c:230-233 | with every list empty a start changes nothing |
| SchedLaws.TickCounts | kernel/src/sched.c:204-214 | a sleeper loses one tick, or is READY and listed when one was left; no other task changes and no other slot joins a list |
| SchedLaws.TickAppends | kernel/src/sched.c:204-214 | the lists after a tick: what was there, then the sleepers due, by slot |
| SchedRuns.WakeCurrentBreaks | kernel/src/sched.c:185-202 | a wake whose slot is the current task breaks the invariant |
| SchedRuns.StepRefines | kernel/src/sched.c:32-240 | every call, under what its caller must check, keeps the list invariant and does the sequence step |
| SchedRuns.StepKeepsInvIff | kernel/src/sched.c:32-240 | a call keeps the invariant if and only if that check holds |
| SchedRuns.RunStaysValidIff | kernel/src/sched.c:32-240 | a run leaves valid lists after every call if and only if every call of it passes its check |
| SchedRuns.BootRunRefines | kernel/src/sched.c:12-240 | over every guarded run from boot the three lists are acyclic, zero-terminated, disjoint and hold exactly the READY tasks queued, never the current one |
| SchedFifo.LinkedFifo | kernel/src/sched.c:63-240 | over every run without task_set_priority whose wakes never find the current task, from any valid state: the old queue then the slots queued is the slots chosen then the list the links hold |
| SchedFifo.BootFifo | kernel/src/sched.c:12-240 | over every such run from boot the slots chosen of a priority are a prefix of those queued, and head, tail and links hold exactly the rest in order: strict FIFO, nothing lost or doubled |
| SchedSleep.StepAsleep | kernel/src/sched.c:204-214 | no call but a tick touches a sleeper's countdown |
| SchedSleep.WakesOnTime | kernel/src/sched.c:204-214 | at the tick at which the countdown ends the task is READY and queued or chosen to run |
| SchedLinked.LinkedSleep | kernel/src/sched.c:158-214 | on the linked tables, over every guarded run after task_sleep(ms): BLOCKED with ms minus the ticks so far, and READY and listed or current at exactly the ms-th tick; sleep(0) is never ended by ticks |
| SchedLinked.BootSleep | kernel/src/sched.c:12-214 | the same for a sleep after any guarded run from boot |
| SchedLinked.OnListIff | kernel/src/sched.c:63-70 | a slot is on the list the links hold exactly when it is in the sequence, because the links hold only one |
| SchedLinked.LinkedRoundRobin | kernel/src/sched.c:123-147 | on the linked tables, with dispatch marking RUNNING: n tasks of one priority and n yields make each current exactly once, in list order, and restore tasks and lists |
| SchedLinked.BootNoneStranded | kernel/src/sched.c:12-242 | on the linked tables, with dispatch marking RUNNING: over every guarded run from boot every READY task is on the list of its priority |
| SchedStrand.LinkedStepStrandsIff | kernel/src/sched.c:123-242 | as written or with the mark, a guarded call keeps every READY task but the current one on its list if and only if it does not take the processor from a READY current task by a yield, a timer interrupt or a start |
| SchedStrand.LinkedStepOneRunsIff | kernel/src/sched.c:123-242 | a guarded call keeps the current task the only RUNNING one if and only if it is not a start that chooses another while the current one runs |
| SchedStrand.BootStrandsIff | kernel/src/sched.c:12-242 | over every guarded run from boot: all READY tasks stay listed exactly when no call strands one, and only the current task is RUNNING exactly when no start comes while it runs |
| SchedLinked.LinkedYieldStrandsIff | kernel/src/sched.c:137-147 | as written, a switching yield leaves the old task READY, on no list and not current exactly when it was READY already; a BLOCKED one is left to its wake |
| SchedRobin.SecondYieldStrands | kernel/src/sched.c:123-147 | as written, the second yield after a start strands the task the first one chose |
| SchedLinked.LinkedStaysStranded | kernel/src/sched.c:123-242 | a stranded task is on no list and not current after every guarded run but those with task_set_priority on it |
| SchedWitness.StaleLinkBreaksSetPriority | kernel/src/sched.c:94-104 | a concrete run from boot after which task_set_priority(3, 0) breaks the lists |
| SchedWitness.SecondYieldStrandsTaskTwo | kernel/src/sched.c:137-147 | a concrete run from boot that strands task 2 |
| SchedWitness.WakeFindsCurrent | kernel/src/sched.c:158-202 | six calls from boot lead to a valid state in which task_wake(2) finds the current task and leaves no valid lists |
| SchedWitness.WakesLoop | kernel/src/sched.c:185-202 | three more calls link slot 2 to itself: no sequences describe the lists and every yield chooses task 2 |
| Bits.RoundDown | kernel/src/mm.c:15-17 | masking with the complement of a power of two minus one subtracts the remainder |
| Heap.AlignUpLeast | kernel/src/mm.c:15-17 | without wrap align_up is the least multiple of a power of two not below the value |
| Heap.AlignUpWrapsIff | kernel/src/mm.c:15-17 | the result is not below the value exactly when value + align - 1 does not wrap |
| Heap.AllocInsideIff | kernel/src/mm.c:45-52 | a grant is aligned, starts at or after the offset and ends inside the heap at the new offset exactly when the end does not wrap; a refusal changes nothing |
| Heap.AllocGrantsIff | kernel/src/mm.c:45-52 | a block whose end does not wrap is granted exactly when some aligned place from the offset on has room in the 262144 bytes, and at the first such place |
| Heap.RunInsideIff | kernel/src/mm.c:45-52 | over every run of requests, all blocks granted end inside the heap if and only if no granted request has an end that wraps |
| Heap.RunDisjoint | kernel/src/mm.c:45-52 | over every run of requests in which no granted request wraps the blocks granted are aligned, inside the 256 KiB and pairwise disjoint |
| Heap.BudgetSuffices | kernel/src/mm.c:45-52 | a request list whose sizes plus alignment slack fit the heap is granted entirely |
| Heap.WrappedGrant | kernel/src/mm.c:47-51 | a request of 2^64 - 1 bytes at offset 8 is granted and moves the offset back to 7 |
| Heap.WrapOverlaps | kernel/src/mm.c:45-52 | with such a request among them two grants share a byte |
| PageTables.SplitBijection | kernel/src/mm.c:84-87 | the four 9-bit indices determine and are determined by bits 12 to 47 |
| PageTables.SplitOnto | kernel/src/mm.c:84-87 | every quadruple of indices is the split of its page's address |
| PageTableProofs.GetEntrySpec | kernel/src/mm.c:60-72 | following or creating an inner entry keeps the forest of tables and every translation |
| PageTableProofs.FindInjective | kernel/src/mm.c:89-97 | no table has two parents: two walks reach one leaf table only from the same root by the same upper indices |
| PageTableProofs.DescendFailsIff | kernel/src/mm.c:89-97 | the walk of a map fails exactly when more tables are missing than pages are left, and otherwise uses exactly those |
| PageTableProofs.MapSpec | kernel/src/mm.c:83-102 | map changes the addressed page of the addressed root and nothing else; when it fails midway no translation changes (leaf taken as pt_page) |
| PageTableProofs.UnmapSpec | kernel/src/mm.c:104-121 | unmap removes exactly the addressed page's entry and allocates nothing (leaf taken as pt_page) |
| PageTableProofs.ProtectSpec | kernel/src/mm.c:151-156 | protect succeeds exactly on a present entry, keeps its address and changes no other page (leaf taken as pt_page) |
| PageEntries.MapStores | kernel/src/mm.c:99 | after a map the entry is, for flags below 4096, the page address plus the flags made odd; for any flags its bits are those of the page address, of the flags, and bit 0 (leaf taken as pt_page) |
| PageEntries.ProtectStores | kernel/src/mm.c:151-156 | a protect succeeds exactly on an entry with bit 0 set, which then has its old address bits and the new flags; otherwise nothing changes (leaf taken as pt_page) |
| PageEntries.RootTranslates | kernel/src/mm.c:84-101 | the entry of a page is the one reached from the root by the nine bits of the address from 39, 30, 21 and 12 on, through entries with bit 0 set (leaf taken as pt_page) |
| PageEntries.NewLink | kernel/src/mm.c:60-72 | a missing table is the next free page, linked by its address plus 1, 2 and 4; with none left nothing changes |
| LiteralLeaf.StoreLookup | kernel/src/mm.c:99-101 | as written, the store into the root gives the pages with that last index the new entry and redirects the walks of the pages reached through the word |
| LiteralCalls.WalkLiteralIff | kernel/src/mm.c:123-140 | as written, a walk with create leaves the entry of a page as it was exactly under the stated condition on the new link and the page's tables |
| LiteralCalls.FailedMapLiteralIff | kernel/src/mm.c:83-97 | as written, a failed map changes exactly the entries of pages that have their tables and share the root word of the first new link |
| LiteralCalls.MapLiteralIff | kernel/src/mm.c:83-102 | as written, a successful map leaves the entry of a page as it was exactly in the stated cases: redirected to the same entry, no leaf table before or after, the word written held that entry, or another word without the new link |
| LiteralCalls.OutsideRedirects | kernel/src/mm.c:99-101 | a frame outside the heap leaves the redirected pages without an entry |
| LiteralCalls.UnmapLiteralIff | kernel/src/mm.c:104-121 | as written, an unmap keeps a page's entry exactly when the call finds no tables, or the page neither shares the root word nor is reached through it, or has no entry |
| LiteralCalls.ProtectLiteralIff | kernel/src/mm.c:151-156 | as written, a protect keeps a page's entry exactly when the word is not present, or the page's redirected or shared entry comes out the same |
| LiteralLeaf.LiteralBreaksForest | kernel/src/mm.c:99-101 | as written, mapping a physical page outside the heap leaves a root that is no well-formed table |
| LiteralLeaf.LiteralInitLeavesHeap | kernel/src/mm.c:36-39 | as written, after the first iteration of mm_init's loop the next walk leaves the heap |
| Vma.FindOrderFree | kernel/src/mm.c:185-192 | with pairwise disjoint areas find does not depend on the order of insertion |
| Vma.FoundIff | kernel/src/mm.c:185-192 | an area is found exactly when one has start at or below the address and end above it, and it is the first such one |
| Vma.RemovedIs | kernel/src/mm.c:174-183 | exactly the first area with that start is removed, at whatever position, and without one none is |
| Vma.RemoveUndoesAdd | kernel/src/mm.c:158-183 | removing the start of an area just added gives the old list |
| Vma.ChainFrame | kernel/src/mm.c:166-170 | page-table work leaves the area list as it is |
| Vma.UnhookChain | kernel/src/mm.c:174-183 | relinking past a node removes exactly that area and keeps the order of the rest |
| MemoryManager.MemoryManager.MmAlloc | kernel/src/mm.c:45-52 | the bump allocator on the heap_offset field |
| MemoryManager.MemoryManager.PageTableGetEntry | kernel/src/mm.c:60-72 | with the flag bits computed by or and mask, the step GetEntry, the forest kept |
| MemoryManager.MemoryManager.MmPageTableCreate | kernel/src/mm.c:74-76 | a fresh root maps nothing and disturbs no other tree |
| MemoryManager.MemoryManager.MmPageMap | kernel/src/mm.c:83-102 | on the heap words: the addressed page gets its address and flags with bit 0, in numbers and bit by bit; all others keep their entries, -1 exactly when tables are missing and pages are not there (leaf taken as pt_page) |
| MemoryManager.MemoryManager.MmPageUnmap | kernel/src/mm.c:104-121 | on the heap words: only the addressed page's entry becomes 0 (leaf taken as pt_page) |
| MemoryManager.MemoryManager.MmPageWalk | kernel/src/mm.c:123-140 | the pointer returned is to the page's entry, and without one the page has no entry; no page of any root changes its entry, and without create nothing changes (leaf taken as pt_page) |
| MemoryManager.MemoryManager.MmPageProtect | kernel/src/mm.c:151-156 | 0 exactly for a present entry, whose flags alone change (leaf taken as pt_page) |
| MemoryManager.MemoryManager.MmInit | kernel/src/mm.c:25-43 | page x below 1024 has the entry 4096 x + 0x103 and no other page has one (leaf taken as pt_page) |
| MemoryManager.MemoryManager.MmVmaAdd | kernel/src/mm.c:158-172 | the new area heads the list, -1 exactly for a bad range or a full heap, and then nothing changes; no page-table entry and no list of the heap changes |
| MemoryManager.AddTakes | kernel/src/mm.c:159-164 | what an add accepts, in numbers: a non-empty range of whole 4096-byte pages, and 32 bytes of heap at the next multiple of eight |
| MemoryManager.MemoryManager.MmVmaFind | kernel/src/mm.c:185-192 | the node of the newest area that covers the address, NULL if none |
| MemoryManager.MemoryManager.MmVmaRemove | kernel/src/mm.c:174-183 | only the newest area with that start goes, the rest keep their order; no page-table entry changes, nor any list that shares no node |
| MmRuns.Answer | kernel/src/mm.c:45-192 | every guarded call on the shared heap does to the roots' entry maps and the heads' area lists exactly what Step says, with its reply, and keeps roots and lists apart |
| MmRuns.Serve | kernel/src/mm.c:45-192 | over every interleaving of create, map, unmap, protect, walk, area add, find and remove and plain allocation, up to the first call outside the guard, the heap denotes one entry map per root and one area list per head |
| MmRuns.EntryOfRun | kernel/src/mm.c:83-156 | after any run the entry of a page of a root is what the maps, unmaps and protects of that page made of it, whatever came between |
| MmRuns.ListOfRun | kernel/src/mm.c:158-192 | after any run an area list is what the additions to it and removals from it made of it |
| MmRuns.BootShared | kernel/src/mm.c:25-43 | the heap after mm_init, with lists nobody has added to, is a start for such runs |
| VfsFiles.FindIsLookup | servers/vfs/vfs.c:105-112 | the linear search finds a slot exactly when the name is in the map, and that slot has its contents |
| VfsFiles.FullIff | servers/vfs/vfs.c:114-119 | there is no free slot exactly when the map has 64 files |
| VfsRuns.CopyOkIff | servers/vfs/vfs.c:129-134 | which offsets and sizes, after 64-bit clipping, copy inside both buffers, and how many bytes |
| VfsRuns.CreateSpec | servers/vfs/vfs.c:170-196 | create refuses a known name or a full table and changes nothing; otherwise it adds the stored name with no bytes, if that name is new |
| VfsRuns.DeleteSpec | servers/vfs/vfs.c:198-215 | delete removes exactly the named file |
| VfsRuns.DeleteCleanIff | servers/vfs/vfs.c:205-207 | after a delete the table is clean exactly when the file's bytes were zero |
| VfsRuns.ReadSpec | servers/vfs/vfs.c:121-142 | a read returns the file's bytes at the offset, clipped to its size |
| VfsRuns.WriteSpec | servers/vfs/vfs.c:144-168 | a write keeps the table well-formed and replies as the map does; it splices the bytes in, zeros in the gap, exactly when the gap in the file's own slot holds zeros |
| VfsRuns.TruncateSpec | servers/vfs/vfs.c:217-240 | shrinking keeps a prefix; growing adds zeros exactly when the gap in the file's own slot holds zeros; other files stay |
| VfsRuns.StepRefines | servers/vfs/vfs.c:105-240 | each guarded request is the same operation on the map, reply included |
| VfsLimits.StepRefinesIff | servers/vfs/vfs.c:105-240 | a request is that operation if and only if its guard holds: a name of at most 63 bytes unless the table is full, growth only over zeros of the file's own slot |
| VfsReplies.RefusedIff | servers/vfs/vfs.c:121-240 | on every well-formed table a request that stays in its buffers is answered -1 and -1 (2^64 - 1) exactly when its name is unknown, or for a create known or the 65th, and then changes nothing; else by a count of at most 512 and 0 |
| VfsReplies.OutOfBoundsOnly | servers/vfs/vfs.c:129-134 | only reads and writes of files that are there leave the buffers |
| VfsReplies.GrantedWords | servers/vfs/vfs.c:121-240 | the count is the bytes read up to the end of the file, the bytes written up to byte 4096, and 0 for the others |
| VfsReplies.BootTells | servers/vfs/vfs.c:105-357 | over every guarded run from boot each reply tells a refusal from an answer, and rightly |
| VfsRuns.RunRefines | servers/vfs/vfs.c:105-240 | over every guarded run, deletes among them, the table stays well-formed and states and replies are those of the map |
| VfsRuns.RunKeepsSlotClean | servers/vfs/vfs.c:144-232 | deletes of other slots do not matter: after any guarded run that does not free a clean slot the bytes past its file's end are zero |
| VfsRuns.GrowsOverZeros | servers/vfs/vfs.c:144-232 | so a file in a slot that no delete has freed grows over zeros, whatever else was deleted |
| VfsRuns.DeleteFreeRuns | servers/vfs/vfs.c:144-232 | over delete-free runs every file's bytes past its size stay zero, so growth reads back zeros |
| VfsLimits.CreatedIsFoundIff | servers/vfs/vfs.c:186-187 | a file just created is found under its path exactly when the path has at most 63 bytes |
| VfsLimits.CreateKeepsDistinctIff | servers/vfs/vfs.c:177-190 | create keeps live names distinct exactly when the stored name is new |
| VfsLimits.DeletedBytesReturn | servers/vfs/vfs.c:205-232 | delete, create, truncate give the new file the deleted file's bytes |
| VfsLimits.DeletedBytesRead | servers/vfs/vfs.c:121-232 | and a read of the new file returns them |
| VfsLimits.ReadPastEnd | servers/vfs/vfs.c:129-134 | every read that starts past the end of its file copies outside its buffers, whatever its count |
| VfsWitness.HelloReturns | servers/vfs/vfs.c:205-232 | from the boot table: delete /hello.txt, create /a, truncate it to 5, and it reads Hello |
| VfsWitness.LongNameLost | servers/vfs/vfs.c:186-187 | from the boot table: every name of 64 bytes is created and then not found |
| VfsWitness.ReadOutOfBuffers | servers/vfs/vfs.c:129-134 | from the boot table: reading 0 bytes of /hello.txt at offset 34 leaves the buffers |
| VfsLimits.ReadAfterWrite | servers/vfs/vfs.c:121-168 | in every well-formed table, over whatever gap, a read of what a write put down returns the bytes written, which begin with the path, and every other file keeps its content |
| VfsLimits.BootFiles | servers/vfs/vfs.c:321-357 | the boot table is well-formed and clean and holds the three default files |
| VfsReplies.BootBytes | servers/vfs/vfs.c:321-357 | the names and contents of the three files, byte by byte |
| VfsLimits.BootRuns | servers/vfs/vfs.c:105-357 | every guarded run from the boot table, deletes among them, refines the map |
| VfsLimits.BootDeleteFree | servers/vfs/vfs.c:105-357 | every delete-free run from the boot table with names of at most 63 bytes is guarded and leaves the table clean |
| VfsListing.EmitPrefix | servers/vfs/vfs.c:270-278 | the listing is the longest run of names, each with a newline, that fits in 510 bytes |
| VfsListing.ListingRoundTrip | servers/vfs/vfs.c:261-284 | splitting the listing at newlines gives exactly the names listed, when no name holds one |
| VfsListing.ListsContents | servers/vfs/vfs.c:270-278 | the names that can be listed are those of the map |
| VfsReplies.ListedInOrder | servers/vfs/vfs.c:265-278 | the name of a live slot comes behind exactly those of the live slots before it |
| Vfs.Vfs.FileFind | servers/vfs/vfs.c:105-112 | the loop with strcmp finds the first live slot of that name |
| Vfs.Vfs.StrNCpyName | servers/vfs/vfs.c:54-60 | the two loops of strncpy, with the byte the second one does not write |
| Vfs.Vfs.HandleRead | servers/vfs/vfs.c:121-142 | on the arrays, the step of the table machine |
| Vfs.Vfs.HandleWrite | servers/vfs/vfs.c:144-168 | on the arrays, the step of the table machine |
| Vfs.Vfs.HandleCreate | servers/vfs/vfs.c:170-196 | on the arrays, the step of the table machine |
| Vfs.Vfs.HandleDelete | servers/vfs/vfs.c:198-215 | on the arrays, the step of the table machine |
| Vfs.Vfs.HandleTruncate | servers/vfs/vfs.c:217-240 | on the arrays, the step of the table machine |
| Vfs.Vfs.HandleReaddir | servers/vfs/vfs.c:261-284 | the live names in slot order, each with a newline, up to the first that does not fit |
| Vfs.Vfs.VfsInitRamfs | servers/vfs/vfs.c:321-357 | the three default files from an empty table |
| LittleEndian.LeRoundTrip | scripts/mkramdisk.py:46-52 | the bytes struct.pack writes read back as the number |
| LittleEndian.LeByte | scripts/mkramdisk.py:46-52 | byte i of a packed number has weight 256^i |
| RamdiskLayout.HeaderLayout | scripts/mkramdisk.py:46-52 | the bytes 52 4D 4B 44, then the count in four bytes and the length of the image in eight, lowest byte first |
| RamdiskLayout.EntryLayout | scripts/mkramdisk.py:58-65 | entry i is at byte 16 + 84 i: at most 63 bytes of the name, NULs up to 64, offset and size in eight bytes each, four zero bytes |
| RamdiskProofs.EntryDecodes | scripts/mkramdisk.py:59-64 | an entry decodes to the first 63 bytes of the name, the offset and the size |
| RamdiskProofs.ImageHeader | scripts/mkramdisk.py:46-52 | magic, count and a total size that is the length of the image |
| RamdiskProofs.OwnEntriesPoint | scripts/mkramdisk.py:55-77 | with the loop's own size each entry points at its file's bytes, past header and entries, one file after the other to the end |
| RamdiskProofs.LiteralEntriesRightIff | scripts/mkramdisk.py:58-66 | as written, all entries are the right ones exactly when all files have one size |
| RamdiskProofs.FindInImage | kernel/src/ramdisk.c:32-42 | searching an image for any C string stays inside it and finds the entry of the first file stored under the name, or nothing |
| RamdiskProofs.RoundTrip | scripts/mkramdisk.py:42-77 | with the loop's own size: a name is found exactly if a file is stored under it, with that file's size at the place of its bytes |
| RamdiskProofs.FirstNamedIs | scripts/mkramdisk.py:60-61 | with distinct names of at most 63 bytes the first file of a name is the file of that name |
| RamdiskProofs.LiteralReadsIff | scripts/mkramdisk.py:58-66 | as written, every file reads back exactly when all have one size |
| RamdiskProofs.OtherSizeLost | scripts/mkramdisk.py:58-66 | as written, the name of a file of another size than the last does not read back |
| RamdiskProofs.TwoSizesLost | scripts/mkramdisk.py:58-66 | two files of one and two bytes on which it fails |
| Ramdisk.BuildRamdisk | scripts/mkramdisk.py:22-80 | the writer's loops and sequential writes give the image, 1 for no files, an exception exactly when a number does not fit its field |
| Ramdisk.ImageReadable | kernel/src/ramdisk.c:32-42 | in every image the writer makes the search for any name reads only bytes of the image |
| Ramdisk.Ramdisk.RamdiskInit | kernel/src/ramdisk.c:15-30 | bad magic sets the header pointer and leaves the entry pointer |
| Ramdisk.Ramdisk.StrCmp | kernel/src/ramdisk.c:4-10 | zero exactly when the bytes are the name and a NUL, if it stops inside memory |
| Ramdisk.Ramdisk.RamdiskFindFile | kernel/src/ramdisk.c:32-43 | NULL without both pointers, else the first entry of that name, in any memory the search does not leave |
| ElfProofs.CopySpec | kernel/src/elf.c:5-10 | a forward byte copy gives the old source bytes whenever the destination does not start inside the source |
| ElfProofs.LoadOneSpec | kernel/src/elf.c:71-81 | one segment: its file bytes at vaddr, zeros up to memsz, nothing else changed (and past memsz the rest of the file's bytes if filesz is larger) |
| ElfProofs.LoadAllSpec | kernel/src/elf.c:58-82 | all segments, when none writes what another reads or writes |
| ElfProofs.OrderFree | kernel/src/elf.c:58-82 | the order of the segments makes no difference |
| ElfProofs.LoadFromIsLoadAll | kernel/src/elf.c:56-82 | the loop, which re-reads headers from memory, loads the segments named at the start when none overwrites them |
| ElfProofs.ElfLoadSpec | kernel/src/elf.c:18-86 | a rejected header, whatever its segments, writes nothing; a good image leaves every byte of memory as its segment says or as it was (what is read as header and segments: `ElfImage`) |
| ElfImage.AnswerIs | kernel/src/elf.c:21-54 | for any header laid out field by field, the answer is its e_entry, or a rejection exactly when magic, class 2, data 1, machine 0x3E or type 2 is not there |
| ElfImage.TableDecodes | kernel/include/elf.h:41-50 | from a table of 56-byte program headers the loader takes exactly those of type 1, in order, with their offset, address and two sizes |
| ElfImage.ImageLoads | kernel/src/elf.c:18-86 | loading an encoded image answers with the encoded entry point and leaves memory with its PT_LOAD segments loaded, when none overwrites the headers or another |
| ElfImage.ImageRejected | kernel/src/elf.c:21-50 | an image with another header is rejected and memory stays |
| ElfImage.ImageBytes | kernel/src/elf.c:71-81 | each encoded PT_LOAD segment is then its file bytes at its address, and zeros up to its size in memory |
| ElfImage.ImageElsewhere | kernel/src/elf.c:71-81 | a byte of no encoded PT_LOAD segment is as it was |
| ElfLoader.MemCpy | kernel/src/elf.c:5-10 | the loop over bytes |
| ElfLoader.MemSetZero | kernel/src/elf.c:12-16 | the loop over bytes |
| ElfLoader.Load | kernel/src/elf.c:18-86 | the header checks and the segment loop over memory do what ElfLoad says, entry point included |
| ShellWords.BlankIs | servers/shell/shell.c:20-24 | exactly space and tab separate words |
| ShellWords.RunsSound | servers/shell/shell.c:19-26 | every token is a maximal run of bytes that are not blank, and they come in order |
| ShellWords.RunsComplete | servers/shell/shell.c:19-26 | no maximal run is missed |
| ShellWords.JoinSplits | servers/shell/shell.c:15-29 | splitting a space-joined list of plain words gives the list |
| ShellWords.CutReads | servers/shell/shell.c:23-25 | after the in-place cuts each token is the C string at its pointer |
| ShellEditor.MessageDoes | servers/shell/shell.c:83-114 | which bytes of a type 4 message run the line, take its last byte off or are added to it, and that all others and all other messages do nothing |
| ShellEditor.LineStaysOk | servers/shell/shell.c:86-113 | whatever the messages, the line is printable and at most 255 bytes |
| ShellEditor.Typed | servers/shell/shell.c:106-112 | typing appends, in order, as much as fits in 255 bytes |
| ShellEditor.BackspaceUndoesIff | servers/shell/shell.c:100-112 | backspace takes back a key exactly when the line had room for it |
| ShellEditor.TypeAndRun | servers/shell/shell.c:86-99 | typing at most fifteen words and Enter runs exactly those words and empties the line |
| ShellEditor.EchoPrints | servers/shell/shell.c:43-50 | echo prints its arguments with single spaces however they were spaced |
| ShellEditor.ArgsAre | servers/shell/shell.c:15-29 | the arguments of a line are all its words, or the first fifteen of more |
| ShellEditor.ExecIs | servers/shell/shell.c:31-66 | help, echo, clear and reboot each run exactly for their own spelling, any other name is reported, and no words run nothing |
| Shell.Shell.ParseCmd | servers/shell/shell.c:15-29 | in place: NULs at the ends of the first fifteen words, pointers at their starts, NULL after |
| Shell.Shell.EchoArgs | servers/shell/shell.c:43-50 | the echo loop joins the arguments |
| Shell.Shell.ExecBuiltin | servers/shell/shell.c:31-66 | which command runs |
| Shell.Shell.Handle | servers/shell/shell.c:83-114 | one message on the buffer, which stays the line followed by zeros |
| Shell.Shell.ShellMain | servers/shell/shell.c:83-114 | over every run of messages the buffer is the fold of the keys and the commands run are those of the lines entered |
| KeyboardQueue.PutSpec | kernel/src/keyboard.c:78-84 | a key goes to the back, and is dropped exactly when 255 are pending |
| KeyboardQueue.GetSpec | kernel/src/keyboard.c:95-100 | a read takes the front, or returns KEY_NONE exactly when none is pending |
| KeyboardQueue.RunFifo | kernel/src/keyboard.c:52-100 | over every interleaving of interrupts and reads the keys accepted are the keys read followed by the at most 255 pending |
| KeyboardQueue.ShiftIsHeld | kernel/src/keyboard.c:61-65 | shift is down exactly when the last shift event was a press |
| KeyboardQueue.CapsIsParity | kernel/src/keyboard.c:66-68 | caps lock is on exactly after an odd number of presses |
| KeyboardQueue.InterruptDoes | kernel/src/keyboard.c:52-84 | with status bit 0 clear nothing happens; else codes 42, 54, 58, 29 and 56 set their flags and a press queues the entry that the flags select, while fewer than 255 keys are pending |
| KeyboardQueue.RunDecodes | kernel/src/keyboard.c:61-79 | over any run every key pressed, modifiers too, is looked up in the shift table exactly when shift held differs from caps lock on |
| KeyboardQueue.PlainKeys | kernel/src/keyboard.c:25-34 | the plain table, every entry, in the characters of the keys |
| KeyboardQueue.ShiftedKeys | kernel/src/keyboard.c:36-45 | the shift table, every entry: the first row in place and the others one early |
| KeyboardQueue.CapitalsOneEarly | kernel/src/keyboard.c:36-45 | every capital is one place before its letter's code, never in it |
| KeyboardQueue.LeftShiftTypesIff | kernel/src/keyboard.c:61-84 | pressing left shift types a bar exactly when caps lock is off and there is room |
| Keyboard.Keyboard.KeyboardHandler | kernel/src/keyboard.c:52-89 | on the ring array and the flags, one interrupt |
| Keyboard.Keyboard.KeyboardHasKey | kernel/src/keyboard.c:91-93 | true exactly when a key is pending |
| Keyboard.Keyboard.KeyboardGetKey | kernel/src/keyboard.c:95-100 | takes the key at the head |
| Mailboxes.RunMail | kernel/src/ipc.c:37-63 | over every run, per endpoint, messages sent are messages received followed by the at most one waiting |
| Mailboxes.SendAnswers | kernel/src/ipc.c:37-49 | after any run, a send to a created endpoint is taken exactly when all that was sent there has been received, else answered -2 |
| Mailboxes.RecvAnswers | kernel/src/ipc.c:51-63 | a receive gives the first message sent and not yet received, exactly when there is one, else -2 |
| Mailboxes.BadCalls | kernel/src/ipc.c:20-55 | an endpoint never created, or a NULL pointer, is answered -1 and nothing changes |
| Mailboxes.SendThenRecv | kernel/src/ipc.c:37-63 | a message taken is what the next receive there gives, whatever calls about other endpoints come between |
| Mailboxes.Independent | kernel/src/ipc.c:20-63 | a call about one endpoint changes nothing at another |
| Mailboxes.RunIds | kernel/src/ipc.c:20-35 | the ids handed out are 0, 1, 2 and so on, at most 64 of them |
| Mailboxes.NextCreate | kernel/src/ipc.c:20-35 | after n creations a create gives n, and -1 after 64 |
| Ipc.Ipc.IpcInit | kernel/src/ipc.c:13-18 | no endpoint is used or has a message |
| Ipc.Ipc.IpcEndpointCreate | kernel/src/ipc.c:20-35 | on the table, the first unused endpoint |
| Ipc.Ipc.IpcSend | kernel/src/ipc.c:37-49 | on the table: -1 for a bad endpoint or message, -2 when one is waiting, else it waits |
| Ipc.Ipc.IpcRecv | kernel/src/ipc.c:51-63 | on the table: -1 for a bad endpoint, -2 when none is waiting, else the message |

## Left out

- MmPageMap: takes the leaf as `pt_page->entries[pt_idx]`, not as line 100 writes it; `LiteralCalls` is about the line as written.
- MmPageUnmap: takes the leaf as `pt_page->entries[pt_idx]`, not as line 120 writes it.
- MmPageWalk: takes the leaf as `pt_page->entries[pt_idx]`, not as line 139 writes it.
- MmPageProtect: through the walk, takes the leaf as `pt_page->entries[pt_idx]`.
- Serve: it stops at the first call outside the guard: a tree or list that does not exist, an argument wider than 64 bits, an alignment that is no power of two, or a block whose end would wrap (`WrappedGrant`). What callers do with plain blocks is not part of it.
- MmInit: the identity mapping is that of the intended leaf; `LiteralInitLeavesHeap` says where the text as written goes. `next_phys_page` and the current-table pointer are not part of it.
- UnmapSpec: takes the leaf as `pt_page->entries[pt_idx]`, not as line 120 writes it.
- ProtectSpec: through the walk, takes the leaf as `pt_page->entries[pt_idx]`, not as line 139 writes it.
- MapStores: takes the leaf as `pt_page->entries[pt_idx]`, not as line 100 writes it.
- ProtectStores: through the walk, takes the leaf as `pt_page->entries[pt_idx]`.
- RootTranslates: of the tables as they are with the leaf taken as `pt_page->entries[pt_idx]`.
- MapSpec: takes the leaf as `pt_page->entries[pt_idx]`, not as line 100 writes it. The heap is assumed to start at a page boundary and its unused part to be zero, as static storage is; mm.c line 16 aligns only the offset. Blocks that mm_alloc hands to others stay outside the tables.
- LinkedRoundRobin: proved of the variant in which dispatch marks the new task RUNNING; as written it fails (`SecondYieldStrands`).
- BootNoneStranded: proved of that variant; as written it fails (`SecondYieldStrandsTaskTwo`).
- OwnEntriesPoint: proved of the variant in which the entry loop uses its own size; `LiteralEntriesRightIff` is about the code as written.
- RoundTrip: proved of the variant in which the entry loop uses its own size; `LiteralReadsIff` is about the code as written.
- RamdiskFindFile: a search that runs past the memory it is given (more entries, or a longer unended name, than there are bytes) is not modelled; no image of the writer causes one (`ImageReadable`).
- Load: every address of the 64-bit space counts as memory, so there are no faults; the mm_alloc call of line 74, whose result the loader ignores, is not part of it, nor is elf_load_segment.
- BuildRamdisk: files are values with a base name and bytes; the directory walk, UTF-8 encoding, a file whose size changes meanwhile, and what is on disk after an exception are not part of it.
- HandleRead: a copy that would leave its buffer is an `OutOfBounds` answer rather than what the memory beyond would do.
- HandleWrite: likewise; `CopyOkIff` says exactly which requests those are.
- ExecBuiltin: strcmp and the console are taken as comparing and printing C strings; what help, clear and reboot print or do is only named.
- Context switches are the change of the current slot; stacks, entry points, inline assembly, cr3 and port input and output are not modelled, and each scheduler call is atomic.
- The 64-bit wrap-around of task_counter and tick_count, and sched_current, timer_init and timer_ticks.
- A task's `next` is kept in an array beside the task table rather than inside its entry.
- Physical page contents, mm_phys_alloc, mm_switch_page_table, mm_page_table_destroy and TLB behaviour.
- VFS open, close, seek and stat, and the transport of messages; a handler's reply is its result.
- kernel/src/virtio_blk.c and kernel/src/virtio_net.c: device plumbing without a protocol to state.
- scripts/mkramdisk.c: a second writer through shell pipes with another header size; the build uses the Python one.
- servers/proc/proc.c, kernel/src/syscall.c, servers/init/init.c, servers/console/console_server.c: table updates, stubs and printing that would add only easy members.
- Console printing, IDT and PIT setup, and keyboard_init.
