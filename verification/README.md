# Models of the RE36 kernel

This project models the parts of the RE36 kernel whose correctness is hardest to see from the
code, and proves properties of those models for all inputs, all runs or all reachable states.
`dafny verify dfyconfig.toml` checks the whole project.

The live kernel:

- **Copy-on-write memory** (`PhysicalMemory`, `CowSpec`, `CowSteps`, `CowRuns`, `CowAccounts`,
  `CowKernel`). Fork shares frames under 8-bit counts and splits them on write faults. The
  specification is "fork copies everything". `CowRuns.RunRefinesEagerCopy` says that over every run
  of clone, Ring 3 store, fault, first touch, unmap and destroy every process reads what it would
  read under that specification and maps the kernel slots it would map, and
  `CowRuns.BootRefinesEagerCopy` says it from boot on. `CowAccounts.FramesAccounted` says that no
  frame is lost on the way. Paging is 32-bit paging (Intel SDM Vol. 3A, section 4.3). Kernel writes do not fault, because CR0.WP is
  never set (kernel/src/vmm.cpp:30-35).
- **FAT16** (`FatTypes` to `FatVolume`). The state is the FAT, the sectors and the shared sector
  buffer; the meaning is a map from (directory, name) to bytes and a listing from (directory, name)
  to entries. Each operation's contract is an equation on both, and `Valid()` is kept by each, so
  every state of every run has chains that are in range, free of cycles, pairwise disjoint and clear
  of free clusters, and an on-disk FAT equal to the one in memory. Formats follow the Microsoft FAT specification 1.03, sections
  "FAT Data Structure" and "FAT Directory Structure".
- **Threads** (`Rings`, `Threads`, `Wakeups`, `LostWaits`, `ThreadLaws`, `ThreadKernel`). Mailboxes,
  event channels, exit and wait, and the task scheduler as one step machine. `ThreadLaws` says what
  its steps mean: no sleeper is late, the foremost thread runs, ready threads age. On every run
  what a blocked thread waits for has not happened, but for a thread that found a channel's waiter
  table full; `LostWaits` reaches that case and the waits for a child that nothing can end.
- **Arithmetic** (`Drawing`, `AddressSearch`, `Decimal`). Bresenham's line, the midpoint circle,
  the virtual address search, printing and parsing.

The in-memory simulator kept in the same tree:

- **IPC** (`Ipc`, `IpcLaws`, `IpcManager`). Semaphores, mutexes, the wait graph and its two searches;
  units are conserved, nobody overtakes in a queue, and a mutex has one holder.
- **Paging with swap** (`Paging`, `Allocation`, `MemoryManager`). Pages, frames and slots in
  bijection, and exactly when an allocation that evicts keeps them so.
- **CPU scheduler** (`Scheduling`, `SchedulingLaws`, `RoundRobin`, `SchedulerObject`). Four algorithms,
  their queues, what a tick means under each, and the exact waiting time under round robin.
- **File system** (`Paths`, `FileTree`) and **block driver** (`BlockCache`). A path cache that nobody
  can see, and a block cache that can be seen in one case only.

Where the source updates state in place the model is a class whose methods are proved against
functions of the old state; the theorems are about those functions, and the contracts also say
without them what changed and what did not.

Where the code and its own comments disagree the model follows the code:

- The rollback of a failed clone makes pages writable that were copy-on-write before the call
  (kernel/src/cow.cpp:58-61). `CowSteps.RollbackInvIff` gives the exact condition under which that
  is harmless, `CowSteps.RollbackRestoresIff` the exact condition under which nothing changed, and
  `CowRuns.ForkMakesRollbackUnsafe` an ordinary state outside both.
- The multilevel queue resets its aging counter before the boost can see it
  (kernel/src/scheduler.cpp:164-170, 475); `Scheduling.AgingNeverFires` proves that no run ages.
  A process preempted by a better level is lowered as if it had used up its quantum
  (`SchedulingLaws.LoweredIff`), and no level once lost comes back (`SchedulingLaws.LevelsNeverRise`).
- `PriorityAlgorithm::selectNext` ignores the running process (kernel/src/scheduler.cpp:107-126), so the
  best process loses the CPU to a worse one. `SchedulingLaws.PriorityRunsIff` is the exact condition
  for the best process to run after a tick, and `SchedulingLaws.PriorityInverts` a run that breaks it.
- A process suspended while the algorithm changes keeps its old quantum
  (kernel/src/scheduler.cpp:626-648), so the configured quantum is no bound on waiting
  (`RoundRobin.OldQuantumDelays`). `RoundRobin.RunsIff` gives the exact number of ticks a process waits
  and `RoundRobin.ConfiguredBoundIff` the exact condition for that bound.
- `FsDriver::format` wipes the computed layout, so no block is reserved and block 0 can be handed
  out as "failure" (kernel/src/fs_driver.cpp:48-51, 66, 231-249); `BlockCache.Driver.AllocBlocks` says
  when that happens. `allocBlock` clears the disk but not the cache: its contract says
  exactly when the two then differ, and `BlockCache.StaleRead` reads the old data back.
- `allocate` gives new frames tick zero, so the frame it evicts can be one it has just taken
  (kernel/src/memory_manager.cpp:73-91). `Allocation.AllocationIff` gives the exact condition on the
  state at entry under which no two pages end up in one frame.
- A file is found again under its name exactly if the name is 8.3 and does not begin with the mark of
  a deleted entry (`FatTypes.FoundIff`); `FatTypes.LongNameIsLost` and `FatTypes.DeletedMarkIsLost` are
  the two ways to lose one.
- A FAT read whose offset plus length exceeds 32 bits runs past the end of the file, unless the file
  fills its last cluster (`FatReading.ReadBackIff`). `alloc_cluster` ignores the number of clusters on
  the disk; `FatWriting.ChainOnDiskIff` is the exact condition for a whole write to lie on it.
- A ninth thread waiting on a channel gets no entry in the waiter table. `Wakeups.PushWakesIff` is the
  exact condition for the next push to wake a waiter; `LostWaits.NinthWaiter` is a run from boot that
  ends in the failing case.
- `sys_wait` takes an unused slot that still names the caller for a child, so the wait after the last
  child is reaped, or after a fork that failed, never returns (`LostWaits.SecondWait`,
  `LostWaits.WaitAfterFailedFork`). `thread_terminate` tells no parent, so neither does a wait whose
  last live child is killed, before or during it (`LostWaits.KilledChild`). `LostWaits.StuckForEver`
  is about every run after that, and `LostWaits.KilledFromBoot` reaches such a state.
- `find_free_vaddr` adds without a check for wrap-around; `AddressSearch.RightIffSafe` says for exactly
  which sizes its answer is right, and `AddressSearch.MappedGoodIff` for which lengths `sys_mmap` keeps
  the regions apart.

Assumptions:

- A system call body is atomic up to a task switch, because gate 128 is an interrupt gate
  (kernel/src/syscall_gate.cpp:27-29; Intel SDM Vol. 3A, section 6.12.1).
- Disk reads and writes succeed, and on a mounted volume every cluster the FAT can name lies on the
  disk (`FatVolume.AllocOnDiskIff` is about the others).
- At most 32 threads exist, so an 8-bit frame count never saturates; frame 0 is reserved at boot.
- The boot thread only halts: it makes no call that blocks or exits (kernel/src/kernel_main.cpp:167-169).
- Clock values, timestamps, permission results and the outcome of unseen code are parameters.

## Model

| member | source | states |
|---|---|---|
| PhysicalMemory.Pmm.GetFirstFreeFrame | kernel/src/pmm.cpp:60-73 | the lowest clear bit in the whole 32-bit words of the bitmap, none exactly when all of those are set |
| PhysicalMemory.Pmm.AllocFrame | kernel/src/pmm.cpp:75-86 | takes that frame with count 1 and bumps the counter; fails, changing nothing, exactly when there is none |
| PhysicalMemory.Pmm.GetFreeBlocks | kernel/src/pmm.cpp:88-105 | finds the lowest run of `count` free frames, exactly when there is one (a single frame is searched in whole bitmap words) |
| PhysicalMemory.Pmm.AllocBlocks | kernel/src/pmm.cpp:107-119 | takes the lowest such run exactly when there is one and counts it, leaving reference counts alone; null is returned when there is none and also, with the run taken, when it starts at frame 0 |
| PhysicalMemory.Pmm.FreeFrame | kernel/src/pmm.cpp:121-134 | drops one reference; the frame becomes free exactly when it was the last; the counter stays right exactly if the frame was not free already |
| PhysicalMemory.Pmm.IncRef | kernel/src/pmm.cpp:136-141 | adds one reference below 255 and saturates there; a free frame gets a count, which is the only way to break the allocator |
| PhysicalMemory.UsedSetUpdate | kernel/src/pmm.cpp:10-20 | setting or clearing one bit adds or removes exactly that frame from the used set, so `used_frames_` counts it |
| PhysicalMemory.Pmm.constructor | kernel/src/pmm.cpp:22-40 | whole bitmap words start set and a partial last word keeps what memory held, so the count of used frames is right exactly if those bits were set |
| CowSpec.CountsArePtes | kernel/src/pmm.cpp:136-147 | the number of address spaces that name a frame is the number of page-table entries that name it |
| CowSpec.RefcountIsPteCount | kernel/src/cow.cpp:73-99 | in every state with the invariant a frame's 8-bit count equals the number of user entries naming it, and a writable entry's frame is named by no other |
| CowSpec.OnlyRef | kernel/src/cow.cpp:124-129 | a frame with count 1 is named by one entry only |
| CowSteps.ForkInv | kernel/src/cow.cpp:24-105 | cloning keeps the invariant: counts, exclusive writers, disjoint roles of frames |
| CowSteps.RollbackInvIff | kernel/src/cow.cpp:47-69 | a failed clone keeps the invariant if and only if no copy-on-write page below the failing slot was shared at entry |
| CowSteps.RollbackRestoresIff | kernel/src/cow.cpp:47-69 | a failed clone restores the whole state if and only if the parent had no copy-on-write page below the failing slot |
| CowSteps.ReuseInv | kernel/src/cow.cpp:124-129 | the fault on the last reference keeps the invariant |
| CowSteps.SplitInv | kernel/src/cow.cpp:131-152 | the fault on a shared frame keeps the invariant |
| CowSteps.MapInv | kernel/src/vmm.cpp:92-120 | mapping a fresh frame keeps the invariant |
| CowSteps.DropInv | kernel/src/vmm.cpp:122-134 | unmapping a page and releasing its frame keeps the invariant |
| CowSteps.DestroyInv | kernel/src/vmm.cpp:179-201 | destroying an address space keeps the invariant |
| CowSteps.SpawnInv | kernel/src/vmm.cpp:156-177 | a new address space keeps the invariant |
| CowRuns.StepInv | kernel/src/cow.cpp:24-153 | every step of the memory system keeps the invariant |
| CowRuns.StepAbs | kernel/src/cow.cpp:24-153 | every step changes what the processes see exactly as the eager step does |
| CowRuns.StepSeen | kernel/src/cow.cpp:24-153 | pages and kernel slots of every address space change exactly as in the eager step: a clone has those of its parent, a new space the given ones and no page |
| CowRuns.RunRefinesEagerCopy | kernel/src/cow.cpp:24-153 | over every run from a state with the invariant each process reads what it would read had fork copied every page, and has the kernel slots it would have; the invariant holds in every state |
| CowRuns.BootInv | kernel/src/kernel_main.cpp:61-76 | a state with no address space and frame 0 in use, as boot leaves it, has the invariant |
| CowRuns.BootRefinesEagerCopy | kernel/src/cow.cpp:24-153 | the same over every run from boot, with no assumption on the state |
| CowAccounts.FramesAccounted | kernel/src/vmm.cpp:92-201 | in every state of every run from boot the frames in use are those in use at boot, the page that a map_page without a table lost, and exactly the directories, tables and pages there are |
| CowAccounts.UsedIsAccounted | kernel/src/pmm.cpp:75-134 | in one state: every used frame is reserved or a directory, table or page, and the other way round |
| CowAccounts.StepExact | kernel/src/vmm.cpp:92-201 | no step takes a frame for a directory or table without entering it, or drops one without releasing it |
| CowRuns.CloneThenDestroy | kernel/src/vmm.cpp:179-201 | clone then destroy of the clone restores the used set, every count and all memory |
| CowRuns.UnsafeRollbackLeaks | kernel/src/cow.cpp:58-61 | outside the condition of RollbackInvIff a store of the parent appears in another address space |
| CowRuns.ForkMakesRollbackUnsafe | kernel/src/cow.cpp:58-61 | a page writable before a fork makes a later failed clone fall outside that condition |
| CowKernel.Kernel.CloneDirectory | kernel/src/cow.cpp:24-105 | the clone exists exactly when there is a frame for the directory and one for each user table; it shows the pages and kernel slots of the parent and no other space changes; otherwise nothing that is seen changes and the state is the rollback |
| CowKernel.Kernel.ShareTable | kernel/src/cow.cpp:73-99 | one table's entries become read-only copy-on-write in both directories, each frame one reference more |
| CowKernel.Kernel.Rollback | kernel/src/cow.cpp:47-69 | all references and tables taken so far are given back, slot by slot |
| CowKernel.Kernel.HandleCowFault | kernel/src/cow.cpp:107-153 | handled exactly for a write to a present copy-on-write page with a frame to spare if shared; no process sees a change; the state is then the reuse or the split |
| CowKernel.Kernel.UserWrite | kernel/src/cow.cpp:107-153 | a Ring 3 write with its faults stores the byte in the writer's view and in no other |
| CowKernel.Kernel.DestroyAddressSpace | kernel/src/vmm.cpp:179-201 | every page, table and the directory are released once, and no other space changes |
| CowKernel.Kernel.CreateAddressSpace | kernel/src/vmm.cpp:156-177 | a directory with the given kernel slots and no user page, or nothing when no frame is free; no other space changes |
| CowKernel.Kernel.UnmapPage | kernel/src/vmm.cpp:122-134 | the page is gone from that space alone and its frame lost one reference |
| CowKernel.Kernel.DemandPage | kernel/src/vmm.cpp:212-308 | the first touch of a page maps the lowest free frame, with a new table if one is missing, exactly when the frames suffice; a mapping shows the given contents, the heap the bytes that user stores or mappings last left in the frame (writes to a frame while it serves as a page table or directory are not in the model's memory) |
| Ipc.StepKeepsInv | kernel/src/ipc.cpp:44-179 | every operation of an unblocked process keeps wait edges honest: an edge exactly for one place in that queue, nobody queues at a semaphore with units, and a mutex with waiters is locked by a non-waiter |
| Ipc.LassoHasCycle | kernel/src/ipc.cpp:410-453 | a walk that repeats a process contains a wait cycle |
| Ipc.CycleSurvives | kernel/src/ipc.cpp:44-179 | a mutex wait cycle survives every operation that does not clean up a participant or destroy one of its mutexes |
| Ipc.DeadlockIsStable | kernel/src/ipc.cpp:44-179 | the same over every run |
| IpcLaws.UnitsConserved | kernel/src/ipc.cpp:44-91 | over every run: value plus units taken, by waits that go on and by hand-offs, is the value at the start plus what it was created with plus the signals, and a value that was not negative stays so |
| IpcLaws.SemaphoreGuards | kernel/src/ipc.cpp:31-91 | from the start never more units are taken than there were and were signalled, so one created with one unit is held once; while a process waits every unit is taken |
| IpcLaws.SignalReleases | kernel/src/ipc.cpp:69-91 | a signal releases the process that queued first and no other |
| IpcLaws.NoOvertaking | kernel/src/ipc.cpp:44-179 | over every run: while a process waits for a semaphore or mutex, whoever queued behind it waits too, unless it is cleaned up itself |
| IpcLaws.LastInQueue | kernel/src/ipc.cpp:44-145 | who has to wait queues behind everybody who waits already |
| IpcLaws.LockVerdict | kernel/src/ipc.cpp:120-145 | a lock makes the caller the holder exactly if nobody else is, and lets it wait exactly if somebody is |
| IpcLaws.HolderStays | kernel/src/ipc.cpp:120-179 | over every run the holder of a mutex holds it until it unlocks or is cleaned up or the mutex is destroyed |
| IpcLaws.HandedOver | kernel/src/ipc.cpp:147-171 | an unlock makes the process that queued first the holder and releases nobody else |
| IpcLaws.CleanupLaw | kernel/src/ipc.cpp:368-393 | a cleaned-up process is in no queue and owns nothing, the first waiter of each mutex it owned owns that mutex, and nobody else is concerned |
| IpcManager.Manager.SemaphoreWait | kernel/src/ipc.cpp:44-67 | takes one unit exactly if there is one, or queues the caller at the end with a wait edge; nothing else changes |
| IpcManager.Manager.SemaphoreSignal | kernel/src/ipc.cpp:69-91 | hands the unit to the process that queued first, whose edge goes, or adds a unit; nothing else changes |
| IpcManager.Manager.DestroySemaphore | kernel/src/ipc.cpp:93-99 | removes the semaphore and the wait edges of all its waiters, and no other |
| IpcManager.Manager.MutexLock | kernel/src/ipc.cpp:120-145 | makes the caller the holder, lets the holder in again, or queues the caller at the end with a wait edge; nothing else changes |
| IpcManager.Manager.MutexUnlock | kernel/src/ipc.cpp:147-171 | hands the mutex to the process that queued first, whose edge goes, or unlocks it; only the owner may |
| IpcManager.Manager.DestroyMutex | kernel/src/ipc.cpp:173-179 | removes the mutex and the wait edges of all its waiters, and no other |
| IpcManager.Manager.CleanupProcess | kernel/src/ipc.cpp:368-393 | takes a process out of every queue and hands on every mutex it held, in whatever order the tables are walked |
| IpcManager.Manager.DetectDeadlock | kernel/src/ipc.cpp:328-339 | true if and only if following "waits for a mutex owned by" reaches a cycle, for every wait graph and every iteration order |
| IpcManager.Manager.GetDeadlockedProcesses | kernel/src/ipc.cpp:341-356 | empty exactly when there is no such cycle, otherwise a walk of that relation whose last process occurs earlier in it |
| IpcManager.Manager.DfsDeadlock | kernel/src/ipc.cpp:410-428 | the recursive search terminates and reports a cycle exactly when one is ahead |
| IpcManager.Manager.DfsDeadlockPath | kernel/src/ipc.cpp:430-453 | the same search with the path it walked |
| FatTypes.ClustersApart | kernel/src/fat16.cpp:28-30 | distinct clusters occupy disjoint sectors, clear of the FATs and the root directory |
| FatTypes.SectorsDisjoint | kernel/src/fat16.cpp:28-30 | chains that share no cluster share no sector |
| FatTypes.SlotsAfterPut | kernel/src/fat16.cpp:545-556 | rewriting one slot of a directory changes that slot and no other |
| FatTypes.MakeEntryFields | kernel/src/fat16.cpp:548-554 | the fields written into an entry read back as written |
| FatTypes.PackedNameIff | kernel/src/fat16.cpp:298-319 | a packed name read back is the name, case folded, if and only if the name is 8.3 |
| FatTypes.FoundIff | kernel/src/fat16.cpp:298-378 | the entry written for a name is one that lookup of that name takes, if and only if the name is 8.3 and its first byte is not the deleted mark |
| FatTypes.DeletedMarkIsLost | kernel/src/fat16.cpp:321-378 | an 8.3 name that begins with 0xE5 is stored in an entry that lookup skips |
| FatTypes.LongNameIsLost | kernel/src/fat16.cpp:298-319 | a name with a longer base is stored under a name that lookup of the original does not match |
| FatNames.MatchFilename | kernel/src/fat16.cpp:32-68 | an entry matches a name exactly when the two strings are equal but for case |
| FatNames.FormatName | kernel/src/fat16.cpp:298-319 | the eight-plus-three form, padded with spaces, with the extension dropped after an overlong base |
| FatSpec.ChainsApart | kernel/src/fat16.cpp:441-461 | live chains are in range, without repetition, pairwise disjoint and clear of free clusters |
| FatSpec.RegionsApart | kernel/src/fat16.cpp:28-30 | directories and chains own disjoint sectors |
| FatSpec.FindIff | kernel/src/fat16.cpp:321-378 | lookup finds exactly the visible entry with the wanted name |
| FatSpec.FilesAre | kernel/src/fat16.cpp:321-378 | the abstract map from (directory, name) to bytes is defined exactly where lookup finds a file |
| FatSteps.PutEffect | kernel/src/fat16.cpp:545-556 | rewriting a slot touches no other slot of any directory and no chain |
| FatSteps.UnhookInv | kernel/src/fat16.cpp:926-929 | marking a slot deleted keeps the volume good |
| FatSteps.UnhookFiles | kernel/src/fat16.cpp:926-929 | and removes exactly that slot's file |
| FatSteps.HookInv | kernel/src/fat16.cpp:545-556 | writing a new entry into the first free slot keeps the volume good |
| FatSteps.HookFiles | kernel/src/fat16.cpp:545-556 | and adds exactly one file |
| FatSteps.FreeStep | kernel/src/fat16.cpp:454-461 | freeing a chain no entry names keeps the volume good and every file |
| FatSteps.AppendInv | kernel/src/fat16.cpp:505-533 | appending a free cluster keeps the volume good |
| FatSteps.AppendFiles | kernel/src/fat16.cpp:505-533 | and changes no file |
| FatSteps.NewDirStep | kernel/src/fat16.cpp:971-994 | a cluster with the image of an empty directory becomes a directory and changes no file |
| FatImage.FlushedIsSynced | kernel/src/fat16.cpp:98-111 | writing the FAT and mounting again is the identity |
| FatWriting.WriteStep | kernel/src/fat16.cpp:505-534 | each round of the writer extends one orphan chain that holds the data so far, and nothing else changes |
| FatWriting.WriteUndone | kernel/src/fat16.cpp:506-512 | a full disk gives back exactly the clusters taken |
| FatWriting.EraseStep | kernel/src/fat16.cpp:924-935 | deleting an entry and freeing its chain removes one file and keeps the volume good |
| FatOps.EraseByName | kernel/src/fat16.cpp:909-937 | in terms of names: exactly that name disappears and its clusters become free |
| FatOps.HookByName | kernel/src/fat16.cpp:536-558 | in terms of names: exactly that name appears with the bytes of its chain |
| FatOps.MoveStep | kernel/src/fat16.cpp:1021-1058 | moving an entry moves a file's bytes to the new name and keeps every other file |
| FatOps.MkdirStep | kernel/src/fat16.cpp:953-996 | a new directory is good, empty, and changes no file |
| FatOps.FormattedVolume | kernel/src/fat16.cpp:70-111 | a volume with an all-zero root directory is good and holds no file |
| FatEntries.EraseEntries | kernel/src/fat16.cpp:909-937 | after a deletion exactly that name is unlisted; every other name of every directory keeps its entry |
| FatEntries.HookEntries | kernel/src/fat16.cpp:536-558 | a new entry is listed under its name; every other name keeps its entry |
| FatEntries.MoveEntries | kernel/src/fat16.cpp:1021-1058 | a move unlists the old name and lists the entry under the new one, for files and directories alike; every other name keeps its entry |
| FatEntries.MkdirEntries | kernel/src/fat16.cpp:953-996 | the parent lists the new directory, the new directory lists itself and its parent, and every other name keeps its entry |
| FatEntries.ExtendedEntries | kernel/src/fat16.cpp:380-439 | extending a directory changes no entry |
| FatVolume.Volume.constructor | kernel/src/fat16.cpp:70-111 | mounting reads the FAT of the first copy |
| FatVolume.Volume.AllocCluster | kernel/src/fat16.cpp:441-452 | the lowest free cluster, 0 exactly when there is none |
| FatVolume.AllocOnDiskIff | kernel/src/fat16.cpp:441-452 | the cluster handed out lies on the disk exactly if some free one does; with only spare FAT entries free it lies past the end |
| FatWriting.ChainOnDiskIff | kernel/src/fat16.cpp:501-534 | the clusters of a write, the lowest free ones, all lie on a disk of n sectors if and only if they are no more than the free clusters that do |
| FatVolume.Volume.FreeChain | kernel/src/fat16.cpp:454-461 | the clusters of the chain become free and no others |
| FatVolume.Volume.FlushFat | kernel/src/fat16.cpp:463-478 | every copy on disk equals the FAT in memory and no sector past the FATs changes |
| FatVolume.Volume.FindDirEntry | kernel/src/fat16.cpp:321-378 | the slot of the wanted name in the root or along the directory's chain, or none |
| FatVolume.Volume.FindFreeDirEntry | kernel/src/fat16.cpp:380-439 | succeeds exactly if a slot is unused or a subdirectory can grow by a free cluster; the slot is the first unused one, a full subdirectory grows by one zeroed cluster, and no file changes |
| FatVolume.Volume.WriteChain | kernel/src/fat16.cpp:501-534 | succeeds exactly when the free clusters hold the data, taking the lowest ones and exactly as many as it needs, and otherwise gives back what it took |
| FatVolume.Volume.WriteFileInDir | kernel/src/fat16.cpp:480-558 | refused, disk full and directory full each exactly under a condition on the state at entry; on success the files are the old ones with this name bound to the data, in the lowest free clusters, and the listing has one new entry with that name, the archive attribute, the time, first cluster and size; each failure leaves every other file and entry |
| FatVolume.Volume.Fat16Read | kernel/src/fat16.cpp:667-728 | for every offset and length the exact slice of the file, if and only if their sum fits 32 bits, the offset is past the end or the file fills its last cluster; otherwise the rest of the chain |
| FatVolume.Volume.ReadFile | kernel/src/fat16.cpp:173-232 | the start of a root file, up to the buffer size |
| FatVolume.Volume.ReadFileOffset | kernel/src/fat16.cpp:234-292 | the same of a root file, by skipping whole clusters |
| FatReading.ReadBackIff | kernel/src/fat16.cpp:681-686 | a read clipped by a sum that wraps gives the slice of the file exactly under that condition |
| FatVolume.Volume.WriteThenRead | kernel/src/fat16.cpp:480-558 | after a successful write every read whose offset and length fit 32 bits gives that slice of the data, and every other file is unchanged |
| FatVolume.Volume.WriteThenUnlink | kernel/src/fat16.cpp:909-937 | in the root, writing a new file and unlinking it leaves FAT and files as they were, and so does a write that finds the disk full |
| FatVolume.Volume.Unlink | kernel/src/fat16.cpp:909-937 | missing and protected names change nothing; otherwise one file and its entry go, its clusters become free, and every other entry stays |
| FatVolume.Volume.Mkdir | kernel/src/fat16.cpp:939-996 | succeeds exactly if the name is new, there is a slot for it and a cluster is left for the directory; no file changes; the parent lists a directory in the lowest free cluster, which lists itself and its parent, and every other entry stays |
| FatVolume.Volume.Rename | kernel/src/fat16.cpp:998-1060 | succeeds exactly if the source is found, the target is not and there is a slot for it; then the old name finds nothing, the new one finds the same entry but for its name, be it a file or a directory, with the same clusters, and every other entry stays; a file's bytes move with it; a refusal changes nothing |
| Paging.NoSharing | kernel/src/memory_manager.cpp:155-238 | no two pages share a frame or a swap slot |
| Paging.PagesFramesSlots | kernel/src/memory_manager.cpp:155-238 | present pages and used frames are in bijection, and so are swapped pages and used slots, with matching owner and page |
| Paging.EvictInv | kernel/src/memory_manager.cpp:457-513 | eviction keeps the bijections |
| Paging.LoadInv | kernel/src/memory_manager.cpp:700-738 | loading a page, from swap or anew, keeps them |
| Paging.GrantInv | kernel/src/memory_manager.cpp:67-115 | new entries in free frames keep them, for a process without pages |
| Paging.SharedFrameBreaks | kernel/src/memory_manager.cpp:95-104 | two new entries for one frame break them |
| Paging.SecondTableBreaks | kernel/src/memory_manager.cpp:95-104 | entries pushed behind older ones of the process break them |
| Paging.WithdrawInv | kernel/src/memory_manager.cpp:117-137 | freeing a whole process keeps them |
| Allocation.FrameEvictedInv | kernel/src/memory_manager.cpp:457-513 | eviction as the code does it, by searching for the entry, is that step in every good state; the frame is free, the page is in the first free slot with its dirty flag or nowhere, and nothing else changes |
| Allocation.VictimIsNew | kernel/src/memory_manager.cpp:411-440 | the first victim of an allocation is none of the frames just taken exactly if none were free or an older page lies below them all |
| Allocation.AllocationIff | kernel/src/memory_manager.cpp:67-115 | an allocation keeps the bijections if and only if nothing is asked for, or the process has no page and the free frames suffice or are one too few with a victim of that kind |
| Allocation.KeepsIffNoRepeat | kernel/src/memory_manager.cpp:73-91 | a first allocation that fails this gives one frame to two pages, and no other does |
| Allocation.TooManyPages | kernel/src/memory_manager.cpp:73-91 | a request for more pages than there are frames outside the kernel always fails it |
| Allocation.FirstAllocation | kernel/src/memory_manager.cpp:73-91 | with no page in memory the condition is that the frames suffice |
| MemoryManager.Manager.FindFreeFrame | kernel/src/memory_manager.cpp:372-397 | the lowest or, for worst fit, the highest free frame; none exactly when all are used |
| MemoryManager.Manager.SelectVictim | kernel/src/memory_manager.cpp:399-444 | the used frame with the oldest load or access, the lowest of several |
| MemoryManager.Manager.TakeFrame | kernel/src/memory_manager.cpp:194-206 | the frame the fit algorithm finds or, exactly when none is free, that of the page the replacement algorithm selects, which goes to swap or is dropped; nothing else moves |
| MemoryManager.Manager.BringIn | kernel/src/memory_manager.cpp:194-224 | the page is resident in that frame, stamped as loaded now and dirty exactly if it was when swapped out; no other frame changes |
| MemoryManager.Manager.EvictFrame | kernel/src/memory_manager.cpp:457-513 | in any state the value of the eviction step; in a good one the frame is free, its page is in the first free slot exactly when swap is on, its owner may swap and a slot is free, and no other page, frame or slot changes |
| MemoryManager.Manager.AccessMemory | kernel/src/memory_manager.cpp:155-238 | the page is resident afterwards at the returned address; exactly on a fault with no free frame one other page moved, the one with the oldest load or access in the lowest frame; the frame of the page carries the new tick as its access and, on a fault, as its load, and no other frame changes |
| MemoryManager.Manager.SwapOutPage | kernel/src/memory_manager.cpp:593-621 | succeeds exactly for a resident page with swap on and a free slot; its frame is free, the first free slot has it with its dirty flag, and nothing else changes |
| MemoryManager.Manager.SwapInPage | kernel/src/memory_manager.cpp:623-653 | succeeds exactly for a swapped page, which is resident afterwards with its dirty flag; the victim, if no frame was free, is the one the replacement algorithm selects |
| MemoryManager.Manager.LoadPage | kernel/src/memory_manager.cpp:700-738 | the page is resident in that frame, which is stamped with the tick as loaded and accessed; its slot becomes free, a page that was dirty when swapped out is dirty again, and no other frame or slot changes |
| MemoryManager.Manager.Allocate | kernel/src/memory_manager.cpp:67-115 | for every process, size and state: the new entries, the frames they name in the order of the fit algorithm, and a good state afterwards if and only if the condition of AllocationIff held at entry; then every page has a frame of its own and at most one victim moved, the oldest |
| MemoryManager.AskTooMuch | kernel/src/memory_manager.cpp:67-115 | on a fresh machine every request for more pages than frames ends with two entries of the process naming one frame |
| MemoryManager.Manager.Deallocate | kernel/src/memory_manager.cpp:117-137 | all frames and slots of the process are free and no other process's page moves |
| Scheduling.StepAgrees | kernel/src/scheduler.cpp:290-466 | every operation keeps states and queues in agreement |
| Scheduling.RunAgrees | kernel/src/scheduler.cpp:470-647 | on every run under every algorithm and any switch between them: Ready exactly when once in the ready queue, Waiting exactly when once in the waiting queue, Running exactly when current |
| Scheduling.AgingNeverFires | kernel/src/scheduler.cpp:161-170 | no tick of any run boosts a process: the counter is reset before it can be seen |
| Scheduling.BestLeast | kernel/src/scheduler.cpp:112-126 | the priority and multilevel selections pick a least key |
| SchedulingLaws.TickLaw | kernel/src/scheduler.cpp:470-544 | a tick under each algorithm: who yields, with what level and quantum it goes on, who runs next and with what quantum, and that nobody else changes |
| SchedulingLaws.TickLawOnRuns | kernel/src/scheduler.cpp:470-544 | the same at every point of every run |
| SchedulingLaws.NoOvertaking | kernel/src/scheduler.cpp:27-98 | over every run under first come, first served or round robin: while a process is ready nobody behind it in the queue runs, whatever else is created, killed, suspended or resumed |
| SchedulingLaws.FcfsHolds | kernel/src/scheduler.cpp:27-53 | first come, first served never preempts, and a free CPU goes to the front of the queue |
| SchedulingLaws.LeastLevelRuns | kernel/src/scheduler.cpp:161-222 | after every tick of the multilevel queue no ready process stands on a better level than the running one |
| SchedulingLaws.LoweredIff | kernel/src/scheduler.cpp:206-232 | the running process is lowered exactly when it yields and there is a level below: when its quantum is used up and another is ready, or a better one is ready |
| SchedulingLaws.LevelsNeverRise | kernel/src/scheduler.cpp:161-232 | on no run does a process get a lost level back while the algorithm stays |
| SchedulingLaws.PriorityRunsIff | kernel/src/scheduler.cpp:101-140 | after a tick under priorities a process of least priority number runs if and only if the one that ran before was not already better than all others |
| SchedulingLaws.PriorityInverts | kernel/src/scheduler.cpp:101-140 | a run from the start on which the better of two processes loses the CPU to the worse |
| SchedulingLaws.BestFirst | kernel/src/scheduler.cpp:112-126 | the selection is the first in the queue of those with the least key |
| SchedulingLaws.ExecuteLaw | kernel/src/scheduler.cpp:546-622 | one instruction: which ones move the counter on, which make the process wait at the end of the queue, and which end it; nobody else changes |
| RoundRobin.TickExact | kernel/src/scheduler.cpp:470-544 | under round robin each tick lowers the number of ticks due to a ready process by exactly one, and it runs exactly when one was due |
| RoundRobin.SpareDue | kernel/src/scheduler.cpp:290-466 | no creation, kill, suspension, resumption or instruction of another process makes more due |
| RoundRobin.RunsIff | kernel/src/scheduler.cpp:57-98 | a ready process runs in every run that spares it and has n ticks, if and only if at most n are due |
| RoundRobin.ConfiguredBoundIff | kernel/src/scheduler.cpp:57-98 | the bound (k + 1) * quantum for index k holds on every such run if and only if no more than that is due |
| RoundRobin.BoundedWaiting | kernel/src/scheduler.cpp:57-98 | under round robin with every quantum at most q a process at index k of the ready queue runs within (k + 1) * q ticks, whatever happens to other processes in between |
| RoundRobin.RunQuanta | kernel/src/scheduler.cpp:626-664 | on every run no quantum exceeds the largest handed out |
| RoundRobin.BoundedWaitingOnRuns | kernel/src/scheduler.cpp:57-98 | from start-up through any operations and switches, whenever round robin is in force the bound holds with the largest quantum handed out so far |
| RoundRobin.BoundedWaitingAlone | kernel/src/scheduler.cpp:57-98 | on every run under round robin alone it holds with the configured quantum |
| RoundRobin.OldQuantumDelays | kernel/src/scheduler.cpp:626-648 | after a switch from the multilevel queue three ticks are due to a process at index 1 under quantum 1, and it does not run within two |
| SchedulerObject.ProcessScheduler.CreateProcess | kernel/src/scheduler.cpp:290-347 | a new pid at the end of the ready queue with the given priority and code, the configured quantum and level 0; refused, changing nothing, at the process limit |
| SchedulerObject.ProcessScheduler.KillProcess | kernel/src/scheduler.cpp:402-432 | a live process is terminated and leaves the CPU and both queues, whose order stays |
| SchedulerObject.ProcessScheduler.SuspendProcess | kernel/src/scheduler.cpp:434-452 | possible exactly for a ready or the running process, which then waits at the end of the queue |
| SchedulerObject.ProcessScheduler.ResumeProcess | kernel/src/scheduler.cpp:454-466 | possible exactly for a waiting process, which is then last in the ready queue |
| SchedulerObject.ProcessScheduler.Schedule | kernel/src/scheduler.cpp:470-544 | one tick as TickLaw describes it, with the queues in agreement afterwards |
| SchedulerObject.ProcessScheduler.ContextSwitch | kernel/src/scheduler.cpp:777-823 | the new process runs with a fresh quantum if it had none, the old one is ready again |
| SchedulerObject.ProcessScheduler.ExecuteCurrent | kernel/src/scheduler.cpp:546-622 | one instruction as ExecuteLaw describes it |
| SchedulerObject.ProcessScheduler.ChangeAlgorithm | kernel/src/scheduler.cpp:626-647 | ready and running processes get the configured quantum for round robin, level 0 and two ticks for the multilevel queue; nothing else changes |
| SchedulerObject.ProcessScheduler.LeastPriority | kernel/src/scheduler.cpp:107-126 | a ready process with the least priority number |
| Rings.PutQueues | kernel/src/syscall_gate.cpp:366-374 | a message sent is last in the mailbox |
| Rings.TakeDequeues | kernel/src/syscall_gate.cpp:395-409 | the message received is the oldest |
| Rings.PushKeepsNewest | kernel/src/event_channel.cpp:74-80 | the ring keeps the newest 63 events in order |
| Rings.PopDequeues | kernel/src/event_channel.cpp:97-103 | the event taken is the oldest |
| Wakeups.StepInv | kernel/src/task_scheduler.cpp:20-183 | every step of the thread machine keeps the invariant |
| Wakeups.NoLostWakeups | kernel/src/syscall_gate.cpp:354-415 | in every state of every run from boot: blocked in recv means an empty mailbox, blocked in wait means no zombie child, blocked on a channel and listed by it means an active channel with an empty ring, exactly the current thread runs, and thread_count is the number of used slots |
| Wakeups.PushWakesIff | kernel/src/event_channel.cpp:67-128 | after a wait on an empty ring the next push wakes the thread if and only if the waiter table had room or listed it; otherwise it sleeps on while the event lies in the ring |
| ThreadLaws.NoneOversleepsOnRuns | kernel/src/task_scheduler.cpp:20-54 | on every run from boot: after every step that picks a thread no sleeping thread is due |
| ThreadLaws.NoneOversleeps | kernel/src/task_scheduler.cpp:20-54 | the same of one step |
| ThreadLaws.SleeperWakes | kernel/src/task_scheduler.cpp:20-109 | a sleeper whose time has come is awake once the running thread has used up its quantum |
| ThreadLaws.TickLaw | kernel/src/task_scheduler.cpp:56-109 | what one tick does to every thread: which age, which wake, which are released, who loses the CPU and who gets it with a full quantum |
| ThreadLaws.TickForemost | kernel/src/task_scheduler.cpp:20-109 | when the quantum is used up the ready thread with the least priority number runs, the lowest of several |
| ThreadLaws.AgesOnce | kernel/src/task_scheduler.cpp:61-71 | over fifty ticks the priority number of a thread that stays ready falls by exactly one, down to 1 |
| ThreadLaws.RescheduleLaw | kernel/src/task_scheduler.cpp:111-130 | giving up the CPU: who runs, who wakes, who is released, and that nobody else changes |
| ThreadLaws.ExitLaw | kernel/src/syscall_gate.cpp:32-85 | an exit leaves a zombie with its code for a parent that may wait, wakes that parent if it waits, and another thread runs |
| ThreadLaws.CreateLaw | kernel/src/event_channel.cpp:30-51 | the first inactive channel from 16 on becomes active and empty, none exactly when all are active |
| ThreadLaws.DestroyLaw | kernel/src/event_channel.cpp:53-65 | every listed thread wakes and the channel is inactive |
| LostWaits.NinthWaiter | kernel/src/event_channel.cpp:106-128 | a run from boot whose last state has a thread asleep on a channel with an event in it |
| LostWaits.WaitVerdict | kernel/src/syscall_gate.cpp:1031-1057 | a round of wait reaps if a zombie names the caller, fails exactly if no slot names it, used or not, and blocks in all other cases |
| LostWaits.WaitForNobody | kernel/src/syscall_gate.cpp:1031-1057 | a caller whose children are all gone or killed is stuck afterwards if and only if a slot still names it |
| LostWaits.SecondWait | kernel/src/syscall_gate.cpp:1039-1055 | the wait after the last child is reaped leaves the caller stuck |
| LostWaits.WaitAfterFailedFork | kernel/src/syscall_gate.cpp:743-756 | so does the wait after a fork that could not clone the address space |
| LostWaits.StuckForEver | kernel/src/syscall_gate.cpp:1031-1057 | a thread blocked in wait whose children are all gone or killed, not listed by a channel or promised a message, stays blocked along every run in which it is not killed |
| LostWaits.KilledChild | kernel/src/thread.cpp:146-154 | a kill of the only live child, by another thread or by itself, leaves its waiting parent stuck |
| LostWaits.KilledChildRuns | kernel/src/thread.cpp:146-154 | the parent is blocked in every state of every run after it, unless it is killed |
| LostWaits.KilledFromBoot | kernel/src/thread.cpp:146-154 | a run from boot, with a fork, a wait and a kill, that ends in such a state |
| LostWaits.ChildExitWakes | kernel/src/syscall_gate.cpp:32-85 | an exit of the child instead wakes the parent and leaves it a zombie to reap |
| Threads.PickIsBest | kernel/src/task_scheduler.cpp:34-54 | the thread picked is the ready one with the least priority number and the lowest tid among those; without one, or if it is thread 0, a running thread goes on |
| Wakeups.ExitInv | kernel/src/syscall_gate.cpp:32-85 | an exit wakes a waiting parent and leaves exactly one thread running |
| Wakeups.WaitInv | kernel/src/syscall_gate.cpp:1031-1057 | a round of wait reaps, fails or blocks without losing a child |
| Wakeups.FailedForkInv | kernel/src/syscall_gate.cpp:743-756 | a fork that fails for want of memory keeps the invariant |
| Wakeups.SendInv | kernel/src/syscall_gate.cpp:354-383 | a send wakes a thread blocked in recv |
| Wakeups.AwaitInv | kernel/src/event_channel.cpp:106-128 | a round of wait takes an event or blocks on an empty ring |
| Wakeups.KillInv | kernel/src/thread.cpp:146-154 | killing keeps the invariant if and only if the slot is out of range, or a live thread other than the boot thread |
| ThreadKernel.Machine.constructor | kernel/src/thread.cpp:23-60 | the boot thread runs, every other slot is unused and nobody waits: the state from which all runs start |
| ThreadKernel.Machine.PickNextThread | kernel/src/task_scheduler.cpp:20-54 | a thread sleeps afterwards exactly if it slept and is not due, a due sleeper is ready, a terminated thread other than the current one is released and every other thread is as it was; picked is the ready thread with the least priority number, the lowest of several |
| ThreadKernel.Machine.Schedule | kernel/src/task_scheduler.cpp:56-109 | one tick as TickLaw describes it: aging, quantum, and, when the quantum is used up, a switch to the foremost thread that leaves exactly one running and no sleeper late |
| ThreadKernel.Machine.BlockCurrent | kernel/src/task_scheduler.cpp:111-130 | the current thread gives up the CPU in its new state and the foremost ready thread runs with a full quantum; no sleeper is late and nobody else changes |
| ThreadKernel.Machine.SleepCurrent | kernel/src/task_scheduler.cpp:141-166 | the current thread sleeps until the given tick and the foremost ready thread runs; no sleeper is late and nobody else changes |
| ThreadKernel.Machine.SendMsg | kernel/src/syscall_gate.cpp:354-383 | refused exactly for a missing target, a full mailbox or an overlong message; otherwise last in the queue |
| ThreadKernel.Machine.RecvRound | kernel/src/syscall_gate.cpp:385-415 | the oldest message, or the thread blocks exactly when there is none |
| ThreadKernel.Machine.WaitRound | kernel/src/syscall_gate.cpp:1031-1057 | reaps a zombie child exactly if there is one, fails exactly if no slot, used or not, names the caller, blocks otherwise |
| ThreadKernel.Machine.ExitThread | kernel/src/syscall_gate.cpp:32-85 | a zombie that wakes its waiting parent, or terminated when there is no parent |
| ThreadKernel.Machine.Terminate | kernel/src/thread.cpp:146-154 | the slot is terminated, whatever it held; if it was current another thread runs; the state stays good exactly for a live thread other than the boot thread |
| ThreadKernel.Machine.SpawnThread | kernel/src/thread.cpp:61-116 | the first unused slot becomes a ready thread, -1 exactly when there is none |
| ThreadKernel.Machine.ForkFails | kernel/src/syscall_gate.cpp:743-756 | the slot of a failed fork is unused again and names the caller |
| ThreadKernel.Machine.PushToChannel | kernel/src/event_channel.cpp:67-88 | the newest 63 events stay and every thread in the waiter table wakes |
| ThreadKernel.Machine.AwaitRound | kernel/src/event_channel.cpp:106-128 | 0 from a channel that is not active, otherwise the oldest event, or the thread blocks, exactly when there is none, with an entry if there is room |
| Paths.NormalizeTwice | kernel/src/filesystem.cpp:351-365 | normalizing is idempotent and leaves no empty, "." or ".." component |
| Paths.NormalizeStep | kernel/src/filesystem.cpp:351-365 | one more component: an empty one or "." changes nothing, ".." gives the parent, any other is appended |
| Paths.NormalizeWhole | kernel/src/filesystem.cpp:351-365 | the normal form of a path without a slash; with NormalizeStep it is determined for every path |
| Paths.NormalizePath | kernel/src/filesystem.cpp:351-365 | the loop computes that normal form |
| Paths.SplitPath | kernel/src/filesystem.cpp:367-371 | the parent and the last component |
| Paths.SplitsOff | kernel/src/filesystem.cpp:367-371 | of a normalized path the parent has all components but the last |
| FileTree.WalkKept | kernel/src/filesystem.cpp:56-84 | a new child with a new name changes no path that resolved |
| FileTree.WalkNew | kernel/src/filesystem.cpp:56-84 | what did not resolve before resolves to the new inode or not at all |
| FileTree.LookupStep | kernel/src/filesystem.cpp:326-349 | a lookup goes component by component: an empty one and "." stay, any other, ".." too, names a child |
| FileTree.ErasedWalk | kernel/src/filesystem.cpp:117-134 | after an inode without children is erased its paths do not resolve and every other path is as before |
| FileTree.MovedWalk | kernel/src/filesystem.cpp:136-157 | a path that does not lead through a moved inode resolves as before |
| FileTree.MovedBelow | kernel/src/filesystem.cpp:136-157 | what lay below the moved inode is found below it again |
| FileTree.MovedThere | kernel/src/filesystem.cpp:136-157 | the new path leads to the moved inode if and only if it was put into a directory; rename also puts it into a file, where nothing finds it |
| FileTree.MovedAway | kernel/src/filesystem.cpp:136-157 | the old path does not resolve any more |
| FileTree.FileSystem.ResolvePath | kernel/src/filesystem.cpp:326-349 | with or without a cached entry, the answer of the walk from the root |
| FileTree.FileSystem.Create | kernel/src/filesystem.cpp:56-84 | fails exactly when the path exists or its parent is no directory; otherwise the path resolves to a new empty inode of that name below that parent, what resolved still does, nothing else has come into reach and no other inode changes but for the list of children |
| FileTree.FileSystem.Write | kernel/src/filesystem.cpp:95-115 | succeeds exactly if permitted on a file, or on a missing name in a directory; the file holds the content, no other content changes, none at all if the write is refused, and paths resolve as before or, for a missing file, as after its creation |
| FileTree.FileSystem.DeleteFile | kernel/src/filesystem.cpp:117-134 | succeeds exactly if permitted on a file; its paths are gone, every other path resolves, or not, as before, and every other inode is as it was |
| FileTree.FileSystem.RemoveDirectory | kernel/src/filesystem.cpp:205-222 | the same for an empty directory other than the root |
| FileTree.FileSystem.Rename | kernel/src/filesystem.cpp:136-157 | succeeds exactly if permitted, the source resolves, the target does not and its parent does; the inode keeps kind and content and every other inode its name, parent and content; paths that do not lead through the inode stay, the old path is free, and the new one leads to it exactly if the parent is a directory |
| FileTree.FileSystem.InvalidateCache | kernel/src/filesystem.cpp:432-435 | only the root stays cached |
| BlockCache.Driver.ReadBlock | kernel/src/fs_driver.cpp:138-171 | what a plain array of blocks holds; the entry is stamped, and a full cache loses one entry, the one used longest ago |
| BlockCache.Driver.WriteBlock | kernel/src/fs_driver.cpp:173-210 | a plain store, cut or padded to the block size; free blocks still hold zeros exactly unless something else is written to one; the entry is dirty and stamped, and a full cache loses the entry used longest ago |
| BlockCache.StaleRead | kernel/src/fs_driver.cpp:231-250 | on every volume what was written to the first free block is read back after the block was allocated and cleared |
| BlockCache.Driver.AllocBlock | kernel/src/fs_driver.cpp:231-250 | the first free block, zeroed, with the free count right; 0 when there is none, and when it is block 0; the cache still agrees with the disk if and only if it has no other data of that block |
| BlockCache.Driver.AllocBlocks | kernel/src/fs_driver.cpp:252-268 | the lowest free blocks in order, exactly if block 0 is not free and there are enough; otherwise none, with the bitmap as before but for block 0, which stays taken if it was free |
| BlockCache.Driver.FreeBlock | kernel/src/fs_driver.cpp:270-287 | the block reads as zeros, is in the cache no more, and the free count is right |
| BlockCache.Driver.Sync | kernel/src/fs_driver.cpp:393-403 | no block changes but block 0, which holds the superblock, and no entry stays dirty or changes otherwise |
| BlockCache.Driver.EvictLru | kernel/src/fs_driver.cpp:586-608 | exactly one entry goes, one with the least access time, written back if dirty, and no block changes |
| BlockCache.Driver.SetCacheSize | kernel/src/fs_driver.cpp:410-415 | the cache shrinks to its limit by exactly as many entries as needed, those used longest ago, and no block changes |
| BlockCache.Driver.PlacedFits | kernel/src/fs_driver.cpp:157-168 | a cache within its limit stays within it, and at most one other entry goes |
| BlockCache.ClearBitsUpdate | kernel/src/fs_driver.cpp:231-250 | one bit changes the number of clear bits by one |
| Drawing.DrawLine | kernel/src/vga.cpp:259-275 | ends at the second point after exactly max(dx, dy) steps to neighbours, never more than half a pixel off, and paints those points and no others |
| Drawing.LineRound | kernel/src/vga.cpp:267-274 | one round keeps 2 * \|dx * j - dy * i\| <= max(dx, dy) |
| Drawing.LineEnds | kernel/src/vga.cpp:267-274 | the end point is reached exactly after max(dx, dy) rounds |
| Drawing.DrawCircle | kernel/src/vga.cpp:277-288 | one octant point for every x up to the diagonal with \|x*x + y*y - r*r\| <= y; a pixel is painted exactly if it folds onto one of them, so the picture has the eight symmetries and no pixel is off the circle by more; nothing for a negative radius |
| Drawing.CircleRound | kernel/src/vga.cpp:277-288 | one round keeps d == 2(x+1)^2 + y^2 + (y-1)^2 - 2r^2 and the bound |
| Drawing.MirroredIff | kernel/src/vga.cpp:280-283 | the eight images of the octant points are exactly the points that fold onto one of them |
| Drawing.EightFold | kernel/src/vga.cpp:280-283 | left and right, top and bottom and the diagonal fold onto the same octant point |
| Drawing.CirclePicture | kernel/src/vga.cpp:277-288 | the picture: painted exactly where a point folds onto an octant point, and nowhere off the circle |
| AddressSearch.FindFreeVaddr | kernel/src/syscall_gate.cpp:142-161 | the value of the search; for a safe size and regions below the limit the lowest page address that fits, 0 exactly when none does; for any size an answer that fits exactly if its own end does not wrap |
| AddressSearch.RightIffSafe | kernel/src/syscall_gate.cpp:142-161 | the answer is right for every list of good regions if and only if the size is below 1.25 GiB, or above 2.25 GiB and below 3.5 GiB |
| AddressSearch.UnsafeIsWrong | kernel/src/syscall_gate.cpp:142-161 | for every other size one region is enough for an address although nothing fits |
| AddressSearch.TooLong | kernel/src/syscall_gate.cpp:142-161 | for every size from 3.5 GiB on an address is returned although nothing fits |
| AddressSearch.AddressSpace.Mmap | kernel/src/syscall_gate.cpp:163-239 | takes that range if the resources it needs are granted; for a safe length the regions stay disjoint and below the limit and the call fails exactly when nothing fits |
| AddressSearch.MappedGoodIff | kernel/src/syscall_gate.cpp:163-239 | a mapping keeps every good address space good if and only if its length is 0, or rounds to a safe size of at least a page |
| Decimal.PrintThenParse | kernel/src/libc.cpp:48-67 | every 32-bit int, printed with any width, padding and justification, parses back to itself |
| Decimal.AtoiReads | kernel/src/libc.cpp:48-67 | for every string: blanks, tabs and newlines, a "+", a "-" or no sign, digits and a rest not looked at give the number of the digits with its sign, wrapped to 32 bits |
| Decimal.AtoiCovers | kernel/src/libc.cpp:48-67 | every string is of that form |
| Decimal.DigitsAre | kernel/src/libc.cpp:240-253 | the digits printed for n stand for n and have no leading zero |
| Decimal.PrintedLaidOut | kernel/src/libc.cpp:255-275 | the field is as wide as asked for or as the number needs, with blanks before or after it or zeros behind the sign |
| Decimal.PrintInt | kernel/src/libc.cpp:240-286 | the emitted string: sign and digits in a field of the wanted width |
| Decimal.ParseInt | kernel/src/libc.cpp:48-67 | blanks, sign and digits, with 32-bit wrap-around |

## Left out

- Port I/O, ATA, AHCI, PCI, PIC, PS/2, display registers, inline assembly, task-switch assembly and TLB flushes: hardware.
- The page cache of file-backed pages (kernel/src/page_cache.cpp): it takes no frame reference, so the count equation does not extend to it; `sys_map_mmio` and `MAP_FIXED` over mapped pages likewise.
- The contents of page tables as memory, and the bitmap as packed words: tables are maps from page to entry, the bitmap one boolean a frame. The user flag is not modelled, since every entry of a user table has it.
- CowRuns.RunRefinesEagerCopy: a failed clone is a step of the runs where its rollback is safe (CowSteps.RollbackInvIff); where it is not, CowRuns.UnsafeRollbackLeaks shows that the claim fails.
- CowKernel.Kernel.CloneDirectory: states the 255-reference limit as a bound on the number of address spaces, which the 32 thread slots guarantee.
- FatVolume.Volume.WriteFileInDir: for 8.3 names that do not name a directory; overwriting a directory as a file would free the directory's clusters under its files, and another name is not found again (FatTypes.FoundIff) and can be stored twice.
- FatVolume.Volume.Unlink: for names that do not name a directory, for the same reason.
- FatVolume.Volume.WriteThenRead: for 8.3 names that do not name a directory, as WriteFileInDir.
- FatVolume.Volume.WriteThenUnlink: for 8.3 names, as WriteFileInDir.
- FatVolume.Volume.constructor: for volumes whose FAT names no cluster past the end of the disk (FatVolume.AllocOnDiskIff and FatWriting.ChainOnDiskIff say what happens on the others).
- FatVolume.Volume.Mkdir: for 8.3 names; a cluster added to a full parent stays when the new directory itself finds no cluster.
- FatVolume.Volume.Rename: for 8.3 target names; the entry "." or ".." can be renamed like any other, as in the source.
- FAT volumes with more than 32768 FAT entries, entries with the read-only, hidden, system or volume attribute (lookup skips them; they count as used slots), and the clusters lost when the root directory is full.
- Ranged `deallocate`, `setSwapSize` while pages are in swap, the swap log, fragmentation and statistics of the memory manager.
- Pipes, message queues and the operation history of the IPC manager.
- IpcManager.Manager.CleanupProcess: semaphores, mutexes and wait edges; the clean-up of pipes and message queues is not modelled.
- Starvation claims for the priority and multilevel algorithms and for the live task scheduler, the Gantt chart and CPU usage.
- ThreadKernel.Machine.SpawnThread: the slot, mailbox and parent of a new thread; its stack, files, address space and regions are not modelled.
- Names, file descriptors, MMIO grants and registers of threads.
- FileTree.FileSystem.Rename: does not claim that the inodes form a tree afterwards; the source lets a directory move below itself.
- FileTree.FileSystem.Write: the data blocks of a file are not modelled.
- The journal, transactions, inode bitmap and superblock encoding of the block driver.
- AddressSearch.FindFreeVaddr: for regions that end below the last page; past it the round-up itself wraps and the search may not end.
- Drawing.DrawLine: integers are unbounded, so overflow of the error term is not modelled.
- Decimal.PrintThenParse: signed overflow is taken to wrap around, which C++ does not promise; the floating, hexadecimal and string conversions of printf are not modelled.
- `kmalloc`, ELF loading, the dynamic loader, event bus, logger, monitor, user manager, console, keyboard, shell and fonts: plumbing or easy members.
