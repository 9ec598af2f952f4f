# CapazOS kernel and FAT core: a verified model

CapazOS is a single-CPU AArch64 kernel with a FAT file system written in Swift on top. This project
models its hard parts and proves what they are for:

- the intent scheduler and the per-task ceilings, over every run of steps;
- capability tables with generation-tagged handles, and message endpoints;
- the path from the flattened device tree to usable memory ranges, to the page bitmap, to the kernel
  heap, the object caches and the allocator layers above them, and the page tables;
- FAT16 and FAT32 chains, directories, the one-sector write-ahead log, and FAT32 files on a block device;
- the loader's random-access file reader.

Each part comes in two layers. A specification module gives the state as a value, the operations as
functions, an invariant, and theorems over all inputs or all runs (`SchedSpec`/`SchedRuns`, `CapSpec`/`CapRuns`,
`Ipc`, `PmmSpec`, `FatTable`/`FatAlloc`/`FatFiles`/`FatRoundTrip`/`FatLimit`, `Journal`, `PageDesc`, `Dtb`/`DtbProof`,
`HeapSpec`/`HeapSteps`, `SlabSpec`). A module with the source's own form — classes whose methods update fields,
arrays changed in place, loops — is proved against it (`Scheduler`, `TaskCeilings.Task`, `CapTable`, `Endpoint`,
`Ranges`, `Platform`, `Pmm`, `Mmu`, `FatDevice`/`FatFileOps`/`FatWriteOps`, `Loader`, `KernelHeap`, `HeapLayers`,
`SlabCache`). `Arith`, `Bytes` and `Options` are shared.

Conventions. A region with interrupts masked, and an allocator call, is one step. Integers are unbounded; where
the source's 16-, 32- or 64-bit arithmetic can wrap or cut a value, the model says so explicitly. The clock, the
answers of the page allocator and of the object allocator, and the linker's addresses are parameters. A panic is
a result, and the theorems say when it is not reached. A disk is a sequence of sectors, memory a map from addresses to
eight-byte words. Device-tree encoding follows section 5.4 of the Devicetree Specification v0.4, descriptors the
VMSAv8-64 formats of the Arm Architecture Reference Manual (DDI 0487), and FAT structures the Microsoft FAT32
File System Specification 1.03.

`dafny verify dfyconfig.toml` checks the whole project.

## Model

| member | source | states |
|---|---|---|
| SchedRuns.BoundedWaiting | Kern/Kernel/sched/sched.c:31-192 | In every run, a thread queued in class c behind k others whose class is not changed is dispatched within B(c)·(k+1) successful picks, with B = 8, 10, 12, 13 |
| SchedRuns.WorstGapIsMet | Kern/Kernel/sched/sched.c:31-46 | The bound for one thread is tight: some cursor position needs exactly B(c) slots before class c is served |
| SchedRuns.UnservedRunIsShort | Kern/Kernel/sched/sched.c:163-192 | A run that never serves the thread makes fewer successful picks than the weighted wait left from the cursor |
| SchedRuns.ServedThreadRuns | Kern/Kernel/sched/sched.c:219-229 | The thread a pick serves is the current one, running, with a full non-zero slice and nothing used |
| SchedRuns.StepKeepsInv | Kern/Kernel/sched/sched.c:309-533 | Every step (create, enqueue, yield, block, wake, exit, set-intent, tick, interrupt exit, preemption depth) keeps: queues duplicate-free, filed by sanitized class, READY only; current never queued |
| SchedRuns.Exec | Kern/Kernel/sched/sched.c:309-533 | The invariant holds after every valid run |
| SchedRuns.InitHolds | Kern/Kernel/sched/sched.c:278-307 | The bootstrap state satisfies the invariant |
| SchedRuns.SliceHolds | Kern/Kernel/sched/sched.c:444-533 | In every run from boot, after an interrupt exit with preemption enabled the running thread has used less than its slice, unless it is the bootstrap thread, which has none |
| SchedRuns.BlockThenPick | Kern/Kernel/sched/sched.c:401-427 | Marking the current thread blocked before the pick, and undoing it when nothing else can run, is one blocking step |
| Scheduler.LinkedIffQueued | Kern/Kernel/sched/sched.c:87-161 | In well-formed rings the link of a thread is non-null exactly when the thread is in some queue |
| Scheduler.Scheduler.constructor | Kern/Kernel/sched/sched.c:278-307 | The object starts as the specification's initial state |
| Scheduler.Scheduler.InsertTail | Kern/Kernel/sched/sched.c:87-111 | Tail insertion in a circular list is appending to the class's sequence; it is refused exactly for a linked thread |
| Scheduler.Scheduler.Remove | Kern/Kernel/sched/sched.c:113-144 | Removal finds the thread exactly when it is queued, takes out that position only, and clears its link |
| Scheduler.Scheduler.PopHead | Kern/Kernel/sched/sched.c:146-161 | Returns the first of the class, null exactly when the class is empty, and leaves the rest in order |
| Scheduler.Scheduler.PickIntent | Kern/Kernel/sched/sched.c:163-192 | Picks the class of the first servable slot from the cursor and moves the cursor just past it; with nothing ready it answers background and keeps the cursor |
| Scheduler.Scheduler.PickNext | Kern/Kernel/sched/sched.c:194-198 | Pops the specification's best thread, or keeps the current one |
| Scheduler.Scheduler.Yield | Kern/Kernel/sched/sched.c:363-399 | Refines the yield step; no assertion fails |
| Scheduler.Scheduler.BlockCurrent | Kern/Kernel/sched/sched.c:401-427 | Refines the block step |
| Scheduler.Scheduler.Wake | Kern/Kernel/sched/sched.c:429-442 | Refines the wake step, including waking a thread that is not blocked |
| Scheduler.Scheduler.Enqueue | Kern/Kernel/sched/sched.c:336-352 | Makes an unqueued thread READY and appends it to its class |
| Scheduler.Scheduler.SetIntent | Kern/Kernel/sched/sched.c:309-334 | A queued thread moves to the tail of its new class; any other thread changes class only |
| Scheduler.Scheduler.TimerTick | Kern/Kernel/sched/sched.c:444-481 | Charges the tick to the thread and to its task, and requests a reschedule exactly as the specification's tick does |
| Scheduler.Scheduler.IrqExit | Kern/Kernel/sched/sched.c:483-533 | Refines the interrupt-exit step: reschedules exactly when asked for and preemption is enabled |
| TaskCeilings.CeilingsHoldInEveryRun | Kern/Kernel/task/task.c:142-206 | In every run of ticks, contracts and transfers, window I/O never exceeds a non-zero limit (also when the window rolls between allow and account), window CPU never exceeds the window, throttle events count each overrun window once |
| TaskCeilings.RunKeepsInv | Kern/Kernel/api/core_kernel_api.c:154-233 | The invariant behind it holds after every run, a transfer in flight included |
| TaskCeilings.FreshHolds | Kern/Kernel/task/task.c:37-76 | A new task satisfies the invariant |
| TaskCeilings.GridStartByDivision | Kern/Kernel/task/task.c:10-35 | The rolled window start found by stepping is the source's quotient formula |
| TaskCeilings.Task.RollWindow | Kern/Kernel/task/task.c:10-35 | After rolling, the tick lies inside the window; usage is reset exactly when the window moved |
| TaskCeilings.Task.ApplyContract | Kern/Kernel/task/task.c:78-95 | New limits with a fresh window |
| TaskCeilings.Task.ChargeTick | Kern/Kernel/task/task.c:142-150 | One tick charged, and whether the window's CPU limit is exceeded |
| TaskCeilings.Task.Allow | Kern/Kernel/task/task.c:152-173 | Admits a transfer exactly when it fits what the rolled window leaves of the limit |
| TaskCeilings.Task.Account | Kern/Kernel/task/task.c:175-206 | Charges a finished transfer to the window of its own tick |
| Ranges.SortRanges | Kern/Kernel/platform/platform.c:52-65 | In place: sorted by base, a permutation of the input, and nothing past n touched |
| Ranges.MergeSound | Kern/Kernel/platform/platform.c:67-89 | Merging sorted ranges covers the same addresses, yields strictly separated ranges, and no more of them |
| Ranges.NormalizeMerge | Kern/Kernel/platform/platform.c:67-89 | The in-place merge leaves exactly the merged ranges in front |
| Ranges.SubtractCovers | Kern/Kernel/platform/platform.c:91-132 | The difference covers exactly what memory covers and reservations do not |
| Ranges.SubtractShape | Kern/Kernel/platform/platform.c:91-132 | The difference is sorted and separated, inside memory, and at most mem_n + rsv_n ranges long |
| Ranges.SubtractReserved | Kern/Kernel/platform/platform.c:91-132 | Succeeds exactly when the difference fits the output, and then writes exactly it |
| Platform.ReservationsCover | Kern/Kernel/platform/platform.c:186-271 | The collected reservations cover, among the window's pages, exactly those touching a reserved, boot, kernel, metadata or device-tree byte |
| Platform.SubtractIsUsable | Kern/Kernel/platform/platform.c:150-300 | Page by page, memory minus reservations is exactly the usable memory defined without any of the algorithms |
| Platform.UsableRanges | Kern/Kernel/platform/platform.c:150-300 | On success the output is aligned, separated, inside the window and covers exactly the usable pages; it fails exactly without memory or when the difference does not fit |
| PmmSpec.PickComplete | Kern/Kernel/mm/pmm.c:336-378 | A request fails exactly when no free run of that length lies wholly before or wholly after the hint; a run it finds is free |
| PmmSpec.OnePageSucceeds | Kern/Kernel/mm/pmm.c:336-378 | A single page is refused only when memory is exhausted |
| PmmSpec.RunsStayDisjoint | Kern/Kernel/mm/pmm.c:336-423 | Over every run of allocations and frees, live runs are disjoint, in the window and marked, and free plus live pages is constant |
| PmmSpec.FreeUndoesAlloc | Kern/Kernel/mm/pmm.c:395-423 | Freeing a run restores the bits as they were |
| Pmm.PageAllocator.MarkRangeFree | Kern/Kernel/mm/pmm.c:112-134 | Frees exactly the whole pages inside the range |
| Pmm.PageAllocator.MarkRangeReserved | Kern/Kernel/mm/pmm.c:136-158 | Reserves exactly the pages the range touches |
| Pmm.PageAllocator.AllocPages | Kern/Kernel/mm/pmm.c:336-378 | The bitmap loops compute the specification's allocation; the free count stays the number of clear bits |
| Pmm.PageAllocator.FreePage | Kern/Kernel/mm/pmm.c:395-423 | Frees the page of an aligned address in the window that is set and is not metadata, and ignores any other |
| Pmm.SecondPass | Kern/Kernel/mm/pmm.c:282-328 | The second reservation pass changes no bit |
| Pmm.BitmapFits | Kern/Kernel/mm/pmm.c:256-262 | For any window-bounded memory the state and bitmap fit the 16 metadata pages |
| Pmm.Init | Kern/Kernel/mm/pmm.c:193-334 | From device-tree ranges to the bitmap: the free pages are exactly the usable pages, and the allocator starts with the run invariant; it panics only with nothing usable, too many ranges, or metadata outside the window |
| FatTable.SetThenNext | Core/FatCommon.swift:292-303 | After setting one entry, reading gives the value there and the old value elsewhere, for both entry widths and keeping FAT32's reserved bits |
| FatTable.SetEntries | Core/Fat32.swift:590-596 | On the decoded table, the byte-level write is one update, and none outside the table |
| FatTable.WalkFindsChainIff | Core/FatCommon.swift:305-333 | An end-marked chain is walked whole exactly when none of its numbers is a bad or end mark |
| FatTable.MarkedChainExample | Core/FatCommon.swift:305-333 | A chain of two clusters, the second numbered like the bad mark, that is not walked |
| FatTable.WalkFindsChain | Core/FatCommon.swift:305-333 | So it is, for every table whose highest cluster is below the bad mark |
| FatTable.ChainIsDistinct | Core/FatCommon.swift:305-333 | A chain that stops at an end mark never repeats a cluster |
| FatTable.ClusterChain | Core/FatCommon.swift:305-333 | The loop computes the walk, with its step limit and its failures |
| FatAlloc.FreeFromFinds | Core/Fat16.swift:363-379 | The search succeeds exactly when enough clusters are free, with that many, ascending, free and in range |
| FatAlloc.FreeFromIsFirst | Core/Fat16.swift:363-379 | What it finds are the lowest free clusters |
| FatAlloc.FindFreeClusters | Core/Fat32.swift:603-619 | The search loop computes that, and answers the empty list for a count of zero or less |
| FatAlloc.ExtendMakesChain | Core/Fat32.swift:1286-1305 | Linking free clusters behind a chain gives an end-marked chain without repeats |
| FatAlloc.CutMakesChain | Core/Fat16.swift:580-591 | Cutting a chain end-marks the kept part and frees exactly the rest |
| FatAlloc.ResizeConserves | Core/Fat16.swift:558-591 | Resizing fails exactly without enough free clusters, and moves the free count by exactly the difference |
| FatAlloc.ResizeMakesChain | Core/Fat16.swift:558-591 | After growing or shrinking, re-walking the new table gives exactly the new chain, an extension or a prefix of the old one |
| FatAlloc.ResizeKeepsOthers | Core/Fat16.swift:558-591 | Every other file's chain is still a chain, and the new one shares no cluster with it |
| FatAlloc.GrowChain | Core/Fat32.swift:1286-1305 | The growing loop on the bytes extends the decoded chain |
| FatAlloc.ResizeChain | Core/Fat16.swift:558-591 | The resize on the bytes is the specification's resize |
| FatBoot.ParsedClusterCount | Core/FatCommon.swift:76-156 | For a boot sector that parses, no allocatable FAT16 cluster reaches the bad or end marks, and a FAT32 volume has at least 65525 clusters |
| FatBoot.ParsedIsMountable | Core/Fat32.swift:498-522 | A FAT32 boot sector that parses and passes the mount's tests lies on the disk, with its root and its last cluster where the layout puts them |
| FatBoot.GoodIff | Core/Fat32.swift:498-522 | Such a volume has the geometry the file operations are modelled for exactly when it has a table, sectors of whole directory slots, cluster numbers below the marks and a disk below 2^64 sectors; its table covers every cluster exactly when its sectors are enough |
| FatBoot.ShortTableMounts | Core/Fat32.swift:498-522 | A boot sector that is mounted although its table does not cover its clusters |
| FatDir.ScanEntries | Core/FatCommon.swift:223-282 | The scan loop lists the specification's records, long names included |
| FatDir.ListedStands | Core/FatCommon.swift:227-282 | Every record listed is a plain slot of the directory, not a deleted, long-name or label one |
| FatDir.PatchedRecords | Core/Fat32.swift:787-809 | Patching one slot changes that record's first cluster and size and no other record |
| FatFiles.ResolveStored | Core/Fat32.swift:745-763 | A path that resolves names an entry that stands in a directory cluster |
| FatRoundTrip.ResolveChanged | Core/Fat32.swift:843-864 | After a write, every path apart from the written clusters resolves as before, up to the patched entry |
| FatRoundTrip.WrittenFileReadsBack | Core/Fat32.swift:1212-1371 | After any successful write (overwrite, extend, shorter, empty) the read gives the data, up to what one read visits, or up to the old chain if its last cluster has no table entry to hang new ones on |
| FatRoundTrip.ReadsBackWholeIff | Core/Fat32.swift:1141-1210 | The read gives all the data exactly when it takes at most 0x100000 clusters and fits the old chain or that chain has its entries in the table |
| FatRoundTrip.OtherFilesKept | Core/Fat32.swift:1212-1371 | Every other file that shares no cluster with the written one reads as before |
| FatRoundTrip.EndMarkedIsSeparate | Core/FatCommon.swift:305-333 | A file with an end-marked chain within the walk's limit meets the round trip's hypothesis |
| FatRoundTrip.SeparateKept | Core/Fat32.swift:1212-1371 | A write leaves the volume fit for the next write of the same path |
| FatLimit.WriteSucceedsIff | Core/Fat32.swift:1280-1305 | A write to a file succeeds exactly when its chain and the free clusters suffice |
| FatLimit.LongFileIsCut | Core/Fat32.swift:1327-1360 | For any data of more than 0x100000 clusters, a volume on which its write succeeds and the next read gives the first 0x100000 clusters only |
| FatLimit.ShortTableLosesTail | Core/Fat32.swift:1286-1305 | Volumes with a short table on which a write that needs new clusters succeeds and the next read gives the old first cluster only |
| Journal.HeaderIsPrepared | Core/Fat32.swift:426-459 | The header just written is recognised at mount and names its target, except for target 0 on FAT32 |
| Journal.CrashAfterPayload | Core/Fat32.swift:394-459 | Once the payload is on disk, a crash at any later step and a mount leave the target with the new data, the log clear, and nothing else changed |
| Journal.CrashBeforeHeader | Core/Fat32.swift:394-424 | Before the header, a mount changes nothing |
| Journal.CrashBeforePayload | Core/Fat32.swift:426-459 | Between header and payload, the mount copies whatever the payload sector held to the target |
| Journal.OldOrNewIff | Core/Fat32.swift:394-459 | After a crash at any step, the target has its old or new content exactly when the stale payload is one of the two or the crash is not in that window |
| Journal.StalePayloadIsReplayed | Core/Fat16.swift:101-143 | A disk and a write for which that window leaves neither, for either FAT type |
| Journal.EveryRecoveryFinishes | Core/Fat16.swift:101-143 | Any number of interrupted mounts, then a whole one, end in the same disk as the undisturbed write |
| Journal.CrashKeepsPrefix | Core/Fat32.swift:394-459 | A crash anywhere in a run of logged writes, outside the window, recovers to the disk after a whole number of them |
| FatLayout.VolSound | Core/Fat32.swift:578-584 | A disk with the geometry shows a volume of uniform clusters whose numbers are no marks |
| FatLayout.PutCluster | Core/Fat32.swift:676-709 | Writing a cluster's sectors changes that cluster of the volume and nothing else |
| FatLayout.PutFirstTable | Core/Fat32.swift:621-646 | Writing the first table copy replaces the decoded table and nothing else |
| FatLayout.PutOtherTable | Core/Fat32.swift:621-646 | Writing another copy changes nothing the volume shows |
| FatLayout.PutPatched | Core/Fat32.swift:787-809 | Patching one sector of a directory cluster patches that entry of the volume |
| FatDevice.LogWrite | Core/Fat32.swift:426-459 | A logged write runs the four stages; it fails exactly for a target off the disk, then changing at most the log |
| FatDevice.ReplayLog | Core/Fat32.swift:394-424 | The mount replays a prepared log and leaves the log clear |
| FatDevice.MountClears | Core/Fat32.swift:394-424 | After a mount the log is clear, and mounting a clear log changes nothing |
| FatDevice.PutSectors | Core/Fat32.swift:676-709 | A run of sectors, fast or logged, changes exactly that run, off the log; a safe write without a log is refused |
| FatDevice.ReadTable | Core/Fat32.swift:533-566 | Reads the volume's table |
| FatDevice.ReadCluster | Core/Fat32.swift:648-674 | Reads the volume's cluster, failing exactly for numbers out of range |
| FatDevice.WriteCluster | Core/Fat32.swift:676-709 | Replaces exactly that cluster of the volume, or refuses and changes nothing |
| FatDevice.WriteTables | Core/Fat32.swift:621-646 | All copies written; the volume shows exactly the new table |
| FatDevice.UpdateDirEntry | Core/Fat32.swift:787-809 | Patches exactly the found entry |
| FatFileOps.FindEntryLocation | Core/Fat32.swift:718-743 | The directory search on the device finds the entry the volume's search finds |
| FatFileOps.ReadDirEntries | Core/Fat32.swift:765-785 | Lists exactly the directory's entries along its chain |
| FatFileOps.ResolvePath | Core/Fat32.swift:745-763 | Resolves a path as on the volume |
| FatFileOps.ReadFileData | Core/Fat32.swift:1141-1210 | Mounts and returns the file as the volume has it |
| FatWriteOps.PlanWrite | Core/Fat32.swift:1280-1305 | The chain for the data, grown when too short, refused exactly when clusters are lacking |
| FatWriteOps.WriteFileData | Core/Fat32.swift:1212-1371 | Performs the volume's write, or leaves the volume as it was; the log ends clear |
| FatDeviceRoundTrip.WriteThenRead | Core/Fat32.swift:1141-1371 | On the device: a successful write, fast or safe, and the next read with its own mount return the data, whole exactly under that condition, and under the cluster limit alone when the table covers the volume |
| FatDeviceRoundTrip.ReadAroundWrite | Core/Fat32.swift:1141-1371 | On the device: another safe path reads the same before and after the write, also when it is refused |
| FatDeviceRoundTrip.LastWriteWins | Core/Fat32.swift:1212-1371 | On the device: after two writes of a path the read gives the second, cut only as above |
| PageDesc.LeafDescReads | Kern/Kernel/mm/mmu.c:534-600 | A leaf descriptor decodes to the address, kind and permissions it was built from |
| PageDesc.MappedTranslates | Kern/Kernel/mm/mmu.c:167-194 | A high-half address has a leaf exactly when its block is mapped, and then translates to its physical address |
| PageDesc.NeverWritableAndExecutable | Kern/Kernel/mm/mmu.c:534-600 | No leaf is both writable and executable |
| PageDesc.ExecutableIsCode | Kern/Kernel/mm/mmu.c:534-600 | Executable are exactly the mapped code pages of blocks that touch the image |
| PageDesc.ExecutableIff | Kern/Kernel/mm/mmu.c:534-600 | With the image mapped, executable pages are exactly the vector page, text and core text |
| Mmu.PageTables.LookupIsLeaf | Kern/Kernel/mm/mmu.c:167-194 | Walking the four table levels finds, for every address, the leaf that the mapped blocks call for |
| Mmu.PageTables.RamIsReached | Kern/Kernel/mm/mmu.c:508-604 | Tables built from ranges translate every RAM address of a range whose end does not wrap to itself |
| Mmu.PageTables.constructor | Kern/Kernel/mm/mmu.c:466-480 | The tables start with the upper-half entry and the device block, mapping no RAM |
| Mmu.PageTables.AllocL2 | Kern/Kernel/mm/mmu.c:334-345 | A cleared table of the pool, refused exactly when all are used |
| Mmu.PageTables.GetL2 | Kern/Kernel/mm/mmu.c:347-358 | The entry's own second-level table, made on first use; it fails only with the pool used up |
| Mmu.PageTables.FillL3 | Kern/Kernel/mm/mmu.c:313-330 | A third-level table whose pages carry the permissions of their sections |
| Mmu.PageTables.MapBlock | Kern/Kernel/mm/mmu.c:522-603 | Maps one more block, by pages when the image reaches into it |
| Mmu.PageTables.MapRange | Kern/Kernel/mm/mmu.c:508-604 | Maps exactly the blocks of the range as the 64-bit arithmetic computes its ends |
| Mmu.PageTables.Build | Kern/Kernel/mm/mmu.c:497-604 | Maps exactly the blocks of all ranges, or of the fallback window without any |
| Mmu.WantedIff | Kern/Kernel/mm/mmu.c:508-521 | All RAM of a range is mapped exactly when neither its end nor the rounded end wraps, or what a wrapped end leaves still passes the reach of the tables |
| Mmu.WrappedMapsNothing | Kern/Kernel/mm/mmu.c:508-521 | A range whose rounded end wraps gets nothing mapped |
| Mmu.WrappedExample | Kern/Kernel/mm/mmu.c:508-521 | Such a range |
| CapSpec.InitHolds | Kern/Kernel/cap/cap_table.c:101-112 | A new table satisfies the invariant: the free stack is a duplicate-free list of exactly the empty slots |
| CapSpec.InsertFails | Kern/Kernel/cap/cap_table.c:114-144 | Insert fails exactly without a free slot or an entry, and then leaves the table as it was |
| CapSpec.InsertResolves | Kern/Kernel/cap/cap_table.c:114-144 | The new handle is not 0 and resolves to its own entry |
| CapSpec.ZeroNeverResolves | Kern/Kernel/cap/cap_table.c:42-88 | Handle 0 resolves in no table |
| CapSpec.RoomOnStack | Kern/Kernel/cap/cap_table.c:33-40 | While a slot is used the free stack has room, so a freed slot is never dropped |
| CapSpec.HandleSplits | Kern/Kernel/cap/cap_table.h:27-29 | Index and generation come back out of a packed handle |
| CapRuns.TransferIsAtomic | Kern/Kernel/cap/cap_ops.c:53-81 | A transfer moves one capability or leaves both tables as they were, also within one table; it succeeds exactly with the right, a free slot and an entry |
| CapRuns.RemoveSucceeds | Kern/Kernel/cap/cap_ops.c:53-81 | After the insert, removing the source never fails: the rollback branch is not reached |
| CapRuns.NextKeepsWInv | Kern/Kernel/cap/cap_ops.c:21-97 | Every operation keeps all tables' invariants and every capability's derivation |
| CapRuns.RightsNeverGrow | Kern/Kernel/cap/cap_ops.c:21-97 | In every run, a capability has its creator's object and type and a subset of its rights |
| CapRuns.StartHolds | Kern/Kernel/cap/cap_table.c:101-112 | Empty tables satisfy the run invariant |
| CapRuns.GenerationCounts | Kern/Kernel/cap/cap_table.c:90-97 | In every run a slot's generation is the first one advanced once per emptying |
| CapRuns.HandleLifetime | Kern/Kernel/cap/cap_table.c:42-198 | In every run a handle resolves to its entry while its slot is not emptied, and afterwards exactly when the slot is in use and was emptied a multiple of 2^32 - 1 times |
| CapRuns.HandleComesBack | Kern/Kernel/cap/cap_table.c:90-172 | From every world there is a run after which a handle that resolves names any other capability |
| CapTable.Space.constructor | Kern/Kernel/cap/cap_table.c:101-112 | The table starts as the specification's |
| CapTable.Space.Add | Kern/Kernel/cap/cap_table.c:114-144 | Refines insert on the slot, generation and stack arrays |
| CapTable.Space.Find | Kern/Kernel/cap/cap_table.c:42-88 | Refines lookup, with each of its failures |
| CapTable.Space.Delete | Kern/Kernel/cap/cap_table.c:150-172 | Refines remove |
| CapTable.Space.InvalidateObject | Kern/Kernel/cap/cap_table.c:174-198 | Refines invalidation: every capability of the object is removed, others stay; nothing for null |
| CapTable.DupCap | Kern/Kernel/cap/cap_ops.c:33-51 | Refines duplication with masked rights |
| CapTable.TransferCap | Kern/Kernel/cap/cap_ops.c:53-81 | Refines transfer, between two tables or within one |
| Ipc.ExactlyOnce | Kern/Kernel/ipc/endpoint.c:141-274 | For every interleaving, at every endpoint, messages sent are those received followed by those queued, in order and intact; live message objects are the total queue length |
| Ipc.NextKeepsInv | Kern/Kernel/ipc/endpoint.c:141-274 | Each send and receive, with its failures, keeps that |
| Ipc.StartHolds | Kern/Kernel/ipc/endpoint.c:28-51 | Empty endpoints satisfy it |
| Endpoint.Port.PushTail | Kern/Kernel/ipc/endpoint.c:63-72 | Appends to the doubly linked list, keeping it well formed in both directions |
| Endpoint.Port.PopHead | Kern/Kernel/ipc/endpoint.c:74-87 | Takes the first and unlinks it; null exactly when empty |
| Endpoint.Port.SendMsg | Kern/Kernel/ipc/endpoint.c:141-184 | Refines send: queues a fresh message, wakes the waiter; fails without an object |
| Endpoint.Port.TryReceiveMsg | Kern/Kernel/ipc/endpoint.c:241-274 | Refines the non-blocking receive |
| Endpoint.Port.ReceiveMsg | Kern/Kernel/ipc/endpoint.c:186-239 | Refines the blocking receive up to publishing the waiter |
| Dtb.CollectMemory | Kern/Kernel/platform/dtb.c:673-755 | The token loop with its depth stack computes the specification's scan, for every block of bytes |
| Dtb.FillTakesFirst | Kern/Kernel/platform/dtb.c:486-494 | Appending keeps the first 16 non-empty ranges |
| DtbProof.ScanFindsMemory | Kern/Kernel/platform/dtb.c:673-755 | For every encoded tree of depth up to 64 the scan ends regularly with the first 16 non-empty reg tuples of memory nodes in document order |
| DtbProof.PlainMeansExact | Kern/Kernel/platform/dtb.c:731-748 | Without other names sharing a prefix, the prefix tests are the whole names |
| DtbProof.InheritedIsStated | Kern/Kernel/platform/dtb.c:673-755 | With cells stated on parents of reg-bearing nodes, inheriting them is what the Devicetree Specification says |
| DtbProof.ScanFollowsSpecification | Kern/Kernel/platform/dtb.c:673-755 | So the scan gives the ranges of the Devicetree Specification, read by whole names |
| DtbProof.AlikeNameIsMisread | Kern/Kernel/platform/dtb.c:731-748 | A tree whose memory node has only a name like reg is misread |
| DtbProof.AlikeExists | Kern/Kernel/platform/dtb.c:731-748 | There is such a tree |
| Loader.Reader.NextCluster | Kern/Loader/loader.c:273-291 | The one-sector cache always answers what the disk says |
| Loader.Reader.SkipClusters | Kern/Loader/loader.c:448-454 | Skips that many links, failing at an end |
| Loader.Reader.CopyCluster | Kern/Loader/loader.c:462-475 | Copies from one cluster, sector by sector |
| Loader.Reader.ReadFileAt | Kern/Loader/loader.c:436-482 | The loops compute the specification's read, 32-bit wrap of offset plus length included |
| Loader.ReadFromIsSlice | Kern/Loader/loader.c:456-480 | What is read along the chain is a stretch of its concatenated clusters |
| Loader.ReadAtIsSlice | Kern/Loader/loader.c:436-482 | For every offset and length without wrap a successful read is that slice of one fixed file content |
| HeapSpec.LiveApart | Kern/Kernel/kheap.c:79-218 | Two blocks handed out never overlap |
| HeapSpec.FreeApart | Kern/Kernel/kheap.c:79-218 | A free block and one handed out never overlap |
| HeapSpec.HeadersClear | Kern/Kernel/kheap.c:29-38 | No block reaches a page header |
| HeapSpec.BlockWrites | Kern/Kernel/kheap.c:143-179 | Whatever the owner writes in its block, headers, free lists and counts stay intact |
| HeapSteps.RefilledKept | Kern/Kernel/kheap.c:79-105 | Carving a page loses no block: each is free or handed out |
| HeapSteps.FreeSmallKeeps | Kern/Kernel/kheap.c:191-203 | Taking a small block back keeps the invariant and subtracts exactly its bytes |
| KernelHeap.RoomIff | Kern/Kernel/kheap.c:143-179 | A block has room for its request exactly up to 2^44 - 4096 - 8 bytes, where the 32-bit page count is exact |
| KernelHeap.LiveAligned | Kern/Kernel/kheap.c:94-104 | Every block is on a multiple of eight, a small one on a multiple of its size |
| KernelHeap.KHeap.BucketForSize | Kern/Kernel/kheap.c:69-77 | The smallest bucket that holds the size |
| KernelHeap.KHeap.RefillBucket | Kern/Kernel/kheap.c:79-105 | Carves a new page into all its blocks, handing none out, writing on that page only, and leaving what the page held but for the first word of each block |
| KernelHeap.KHeap.Kmalloc | Kern/Kernel/kheap.c:143-179 | A block not handed out before, of the right kind, with exactly its bytes counted and every other block's content kept; 0 exactly for size 0 or without memory; past its first word it holds what its new pages held, or words known from before |
| KernelHeap.KHeap.Store | Kern/Kernel/kheap.c:143-179 | An aligned word written by the owner keeps the heap valid and every other block's content |
| KernelHeap.KHeap.Kfree | Kern/Kernel/kheap.c:181-218 | From the page header alone: exactly that block and its bytes go, large blocks return their pages, every other block's content stays, an unknown pointer is ignored |
| HeapLayers.ClientsApart | Core/swift_runtime_shims.c:53-95 | What two clients may write never overlaps, nor reaches the other's headers |
| HeapLayers.ClientWrites | Core/swift_runtime_shims.c:53-95 | Whatever a client writes in its bytes, every pointer's way back to its kernel block stays |
| HeapLayers.RecoveredIff | Core/swift_runtime_shims.c:83-101 | free reaches the kernel block of an address always from posix_memalign; from cka_malloc exactly when the word two before it was not the posix_memalign mark when it was handed out (or the charged size names the block) |
| HeapLayers.MarkedBlock | Core/swift_runtime_shims.c:83-101 | A first page that still holds the mark, and one allocation, whose address free cannot lead back |
| HeapLayers.UsableIff | Kern/Kernel/api/core_kernel_api.c:377-397 | A client of cka_kmalloc has the bytes it asked for exactly when the request neither wraps nor passes the heap's limit |
| HeapLayers.EffectiveIs | Kern/Kernel/api/core_kernel_api.c:420-438 | The alignment used is the smallest power of two at least the one asked for and a pointer's size |
| HeapLayers.SaneIff | Kern/Kernel/api/core_kernel_api.c:377-452 | A block holds the headers, the slack and the client's bytes exactly when the request does not wrap and stays below the heap's limit |
| HeapLayers.RoundUpPow2 | Kern/Kernel/api/core_kernel_api.c:420-431 | The doubling loop computes the next power of two |
| HeapLayers.Runtime.CoreKmalloc | Kern/Kernel/api/core_kernel_api.c:377-397 | A new kernel block behind the accounting header, for any size; refused exactly above the ceiling, for a request that wraps to zero, or without a block |
| HeapLayers.Runtime.CoreKfree | Kern/Kernel/api/core_kernel_api.c:399-418 | Returns exactly the client's kernel block and refunds exactly what was charged; a kernel block without the header goes back as it is |
| HeapLayers.Runtime.CkaMalloc | Kern/Kernel/api/core_kernel_api.c:433-452 | An aligned address with room for the size, in a new kernel block of its own; the word two before it is not the mark if that word is the charged size or no granted page ever held the mark |
| HeapLayers.Runtime.CkaFree | Kern/Kernel/api/core_kernel_api.c:454-461 | Finds the accounted block through the word in front of the client bytes |
| HeapLayers.Runtime.PosixMemalign | Core/swift_runtime_shims.c:53-78 | An aligned pointer with room for the size; error 22 exactly for a bad alignment, 12 without memory |
| HeapLayers.Runtime.ClientStore | Core/swift_runtime_shims.c:53-95 | A client's aligned word, in its own bytes, keeps the whole stack valid |
| HeapLayers.Runtime.Free | Core/swift_runtime_shims.c:80-95 | After any allocations, frees and client writes, frees exactly the kernel block the address came from and refunds what its allocation charged; what it asks of the address is fixed when the address is handed out |
| SlabSpec.ObjectsApart | Kern/Kernel/alloc/slab_cache.c:40-64 | Two objects, free or in use, never overlap |
| SlabSpec.ObjectAligned | Kern/Kernel/alloc/slab_cache.c:40-64 | Every object is aligned as asked |
| SlabSpec.LiveIsCounted | Kern/Kernel/alloc/slab_cache.c:167-205 | For an object in use neither count is zero: freeing it reaches no panic |
| SlabCache.Configure | Kern/Kernel/alloc/slab_cache.c:82-121 | For every size and alignment when the source panics and what it sets up, 32-bit casts included; objects have the size asked for exactly when it fits a page |
| SlabCache.PastPageIff | Kern/Kernel/alloc/slab_cache.c:97-107 | A size past a page is accepted exactly when what the casts leave of it fits behind the header |
| SlabCache.PastPageExample | Kern/Kernel/alloc/slab_cache.c:97-107 | 2^32 + 8 bytes are taken for 8 |
| SlabCache.ObjectCache.BuildFreelist | Kern/Kernel/alloc/slab_cache.c:40-64 | Threads all the objects that fit, at least one, and writes on that page only |
| SlabCache.ObjectCache.Alloc | Kern/Kernel/alloc/slab_cache.c:123-165 | An aligned object not in use before, every object in use keeping its content; 0 exactly when every page is full and none is granted; on every page free objects plus those in use stay the capacity |
| SlabCache.ObjectCache.Store | Kern/Kernel/alloc/slab_cache.c:123-165 | An aligned word written by the owner of an object keeps the cache valid and every other object's content |
| SlabCache.ObjectCache.Free | Kern/Kernel/alloc/slab_cache.c:167-205 | Takes exactly that object back, keeping every other one's content and the counts; a pointer into a page not of the cache is foreign |

## Findings

Where the code does not meet what one would expect of it, the model keeps the code and states exactly when it does.

- **Stale log payload** (Core/Fat32.swift:426-459). The log header is written before the payload. A crash between the
  two makes the next mount copy an earlier payload to the new target. `Journal.OldOrNewIff` gives the exact condition,
  `Journal.StalePayloadIsReplayed` a case where neither old nor new content results.
- **Files of more than 0x100000 clusters** (Core/Fat32.swift:1141-1210, 1327-1360). The write stops after that many clusters,
  succeeds and records the full size; the read stops there too. `FatRoundTrip.ReadsBackWholeIff`, on the device
  `FatDeviceRoundTrip.WriteThenRead`, and `FatLimit.LongFileIsCut` for every such file.
- **Tables shorter than their volume are mounted** (Core/Fat32.swift:498-522). Nothing compares the table's sectors with the number
  of clusters: `FatBoot.GoodIff`, `FatBoot.ShortTableMounts`. A file whose last cluster lies past such a table cannot grow: the write
  succeeds and the rest is not linked. `FatRoundTrip.ReadsBackWholeIff` has the exact condition, `FatLimit.ShortTableLosesTail` volumes
  where it fails.
- **Device-tree names by prefix** (Kern/Kernel/platform/dtb.c:731-748). Names are recognised by their first characters,
  so another name like `reg` is read as `reg`. `DtbProof.ScanFollowsSpecification` states when this makes no
  difference, `DtbProof.AlikeNameIsMisread` and `DtbProof.AlikeExists` a family where it does.
- **A memory range that ends in the last 2 MiB of the address space** (Kern/Kernel/mm/mmu.c:508-521). Its rounded end is
  0 and nothing is mapped; a range whose own end wraps is mapped short. `Mmu.WantedIff`, `Mmu.WrappedMapsNothing`, `Mmu.WrappedExample`.
- **Chains through reserved cluster numbers** (Core/FatCommon.swift:305-333). A chain whose own numbers reach the bad mark is
  not walked whole: `FatTable.WalkFindsChainIff`, `FatTable.MarkedChainExample`. `FatBoot.ParsedClusterCount` shows that no FAT16 volume that
  parses has such numbers.
- **Handles after 2^32 - 1 removals** (Kern/Kernel/cap/cap_table.c:90-97). A generation comes back exactly at multiples of
  2^32 - 1 emptyings of the slot, and the handle then names whatever is there: `CapRuns.HandleLifetime`, `CapRuns.HandleComesBack`.
- **Heap requests of 2^44 bytes and more** (Kern/Kernel/kheap.c:166-167). The page count is cut to 32 bits, so the block is
  smaller than asked for: `KernelHeap.RoomIff`, and through the layers `HeapLayers.SaneIff`.
- **The mark of `posix_memalign` is looked for before every address** (Core/swift_runtime_shims.c:83-95). The word two before a
  `malloc` address is not always written by the allocation: it may be what the page held before the heap had it.
  `HeapLayers.RecoveredIff` is the exact condition, `HeapLayers.MarkedBlock` a run that fails it, and `HeapLayers.Runtime.CkaMalloc` says
  that it holds as long as no granted page held the mark.
- **Object sizes through 32-bit casts** (Kern/Kernel/alloc/slab_cache.c:97-101). A size past a page can come out small instead of being
  refused: `SlabCache.PastPageIff`, `SlabCache.PastPageExample`.

## Left out

- I/O failures of the block device: the device reads and writes every sector in range. A failed transfer mid-write is covered only as a crash in `Journal`.
- Core/Fat32.swift:1409-1429 (delete), path normalisation, directory and kernel-image listings, statistics, task capabilities and contract checks: they would add easy members.
- Core/Fat16.swift:386-523 (directory-level overwrite, new files and delete): FAT16 is modelled in its chain resize, log and geometry.
- Partition discovery from GPT and MBR, in Swift and in the loader: it would add easy members.
- FatFileOps.ReadFileData: takes the mounted geometry as a parameter, and so do the members below; volumes without a table, with sectors that split directory slots, or with cluster numbers that are marks are excluded, `FatBoot.GoodIff` being the exact boundary.
- FatFileOps.FindEntryLocation: as `FatFileOps.ReadFileData`.
- FatFileOps.ReadDirEntries: as `FatFileOps.ReadFileData`.
- FatFileOps.ResolvePath: as `FatFileOps.ReadFileData`.
- FatWriteOps.WriteFileData: as `FatFileOps.ReadFileData`.
- FatDeviceRoundTrip.WriteThenRead: as `FatFileOps.ReadFileData`.
- FatDeviceRoundTrip.ReadAroundWrite: as `FatFileOps.ReadFileData`.
- FatDeviceRoundTrip.LastWriteWins: as `FatFileOps.ReadFileData`.
- Pmm.Init: device-tree ranges whose end wraps at 64 bits are excluded; for those `Platform.UsableRanges` promises the shape of the result and not which pages it covers.
- Endpoint.Port.ReceiveMsg: one round of the receive, up to publishing the waiter; the block and the retry are steps of the scheduler.
- Kern/Kernel/platform/dtb.c:757-848 (reserved-memory nodes, same loop as the memory scan), 661-671 and the header checks of 414-454.
- Dtb.CollectMemory: the 64-entry stack is a sequence with the source's depth limit, not an array.
- Saved register contexts, trap frames and the context switch: the scheduler model keeps which thread is current.
- Scheduler.Scheduler.BlockCurrent: no claim that a blocked waiter is woken, since an endpoint publishes its waiter before the thread blocks (Kern/Kernel/ipc/endpoint.c:233-237).
- Scheduler.Scheduler.Yield: no claim that a dead thread never runs again, since the source marks the current thread running when nothing else can run (Kern/Kernel/sched/sched.c:387-390).
- Kern/Kernel/task/task.c:208-240 (the memory ceiling): its answer is a parameter of the allocator layers.
- Counters that only feed statistics (run counts, allocation calls, peaks, pressure) in every part.
- TaskCeilings.CeilingsHoldInEveryRun: one thread per task and no 64-bit wrap of the clock or of the totals; a partly failed transfer is not charged, as in the source.
- PageDesc.LeafDescReads: the bitwise OR of descriptor fields is the sum of fields at disjoint positions; shifts and masks are quotients and remainders.
- Mmu.PageTables.Build: cache maintenance, the system registers and the boot self-check are not modelled; running out of tables is a result where the source panics.
- Pmm.PageAllocator.AllocPages: the memory-pressure log is not modelled.
- KernelHeap.KHeap.Kmalloc: the page allocator's answer is a parameter, required to be pages the heap does not own, as `PmmSpec.RunsStayDisjoint` provides.
- KernelHeap.KHeap.Kfree: a pointer that is not live but lies on a heap page (a second free) is excluded; the source does not detect it.
- HeapLayers.Runtime.CkaMalloc: requests that wrap or exceed the heap's limit are excluded, with `HeapLayers.SaneIff` the exact boundary; alignments above 2^63, on which the source's loop does not end, are excluded too.
- HeapLayers.RoundUpPow2: arguments above 2^63 are excluded, for the same reason.
- HeapLayers.Runtime.PosixMemalign: sizes that wrap or exceed the heap's limit are excluded, as for `HeapLayers.Runtime.CkaMalloc`.
- HeapLayers.Runtime.CoreKfree: an address that is neither a client's nor a live kernel block is excluded; the memory ceiling's answer is a parameter.
- HeapLayers.Runtime.Free: `calloc` is not modelled; an address whose way back is not found is excluded, with `HeapLayers.RecoveredIff` the exact boundary.
- SlabCache.ObjectCache.Free: a second free, or an address inside an object, on a page of the cache is excluded; the source does not detect it.
- SlabCache.ObjectCache.Alloc: the page header is kept in maps by page, not in memory words; objects never reach it (`SlabSpec.ObjectPage`).
- `deadline_queue.c`, `work_queue.c`, device drivers, assembly, console and build files.
