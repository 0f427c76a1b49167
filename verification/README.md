# A verified model of the sunxi IOMMU page table and the cedar video engine driver

The project models three parts of the kernel sources in `bsp/drivers` and proves what they are for:

- the two-level page table of the sunxi IOMMU, with the map and unmap operations of its driver, in
  both hardware layouts, and the bypass registers of the second hardware generation;
- the state machines of the cedar video engine driver: the priority task queue, the lock flags of its
  file handles, the load table and the clock rate chosen from it, the wait for the decoder interrupt,
  and the reference counting of its clocks;
- the circular doubly linked list of DMA buffers and the bookkeeping of the resources each of them
  holds.

`dafny verify dfyconfig.toml` verifies everything.

## How it is built

The page table (`PageTable.dfy`) is a class with an array of 4096 directory words and, for each live
second-level table, an array of 256 or 1024 words; what a physical address leads to is a map from
addresses to these arrays, which stands for `__va`. Every method is proved against one abstract
value, `Contents()`: a finite map from page numbers to physical page and access bits
(`Mappings.dfy`). The arithmetic it rests on is kept apart: packed words as numbers (`Layout.dfy`),
the same words as the C operators compute them (`EntryBits.dfy`, on `Bits.dfy` and `Parts.dfy`), the
chunks of a range (`Ranges.dfy`), and what one write does to the table as a whole (`Tables.dfy`).
What the cache of second-level tables answers is an input, and `Cache.dfy` says what its answers mean
for a map: it fails if and only if a request it made was refused. `Domain.dfy` holds map, unmap and
whole runs of them, `Requests.dfy` what a run means,
`Invalidations.dfy` the log of cache invalidations an unmap issues, `Dump.dfy` the run-length dump.

In the video engine driver each operation that runs under one lock is one step: a function on values,
the method that performs it in place, and a theorem about every run of the steps. This holds for
`TaskQueue.dfy`, `LoadTable.dfy` with `Frequency.dfy`, `ClockGate.dfy` and `Bypass.dfy`.
`LockFlags.dfy` and `IrqWait.dfy` are interleaving machines: a step is what one thread does between
two points where another can come in. `MemList.dfy` is a heap proof of the linked list, and
`DmaBuf.dfy` walks it while deleting.

Words are numbers below 2^32 and addresses are unbounded numbers; wherever the C code cuts a value to
32 bits, the model does so with an explicit `%`.

## What does not hold, and exactly when it does

The code misses some of what one would expect of it. Each time the condition under which it holds is
proved to be the exact one, for all inputs:

- Level-1 preparation steps by whole directory spans from the start of the range, so it misses the
  last directory entry of a range whose start and length straddle a span. `Ranges.CoveredIff` gives
  the condition; framework requests meet it (`Ranges.FrameworkReaches`), and
  `Counterexamples.DirectoryNotPrepared` is a range that does not.
- The second-level loop adds 4096 to a packed word, so in the second layout a chunk that crosses a
  4 GiB boundary names the wrong page: `Ranges.MapWordDecodes`, `Counterexamples.CarryLost`.
- The end of a range that ends at 2^32 is 0 in the first layout's invalidation registers, so neither
  the TLB nor the page-table-walk range covers its last page: `Invalidations.TlbCoverage`,
  `Invalidations.PtwRangeCoverage`, `Counterexamples.LastPageNotInvalidated`,
  `Counterexamples.LastDirectoryNotInvalidated`.
- Nothing checks the directory entries between the two loops of a map, so the second one writes
  through the first entry that is not valid: `Domains.Domain.Map` says when, and that a range that
  meets the level-1 condition is safe. An unmap takes the error for such an entry as a step of almost
  4 GiB and stops there, while it reports the whole size. It has removed the whole range exactly when
  nothing behind that entry was mapped: `Domains.Domain.Unmap`, `Counterexamples.UnmapStopsEarly`.
- Below version V14 the second layout writes an untranslated address to a 32-bit register, so no
  directory entry above 4 GiB is invalidated: `Invalidations.PtwLoopCoverage`,
  `Counterexamples.HighDirectoryNotInvalidated`.
- A load entry of codec format -1 looks to the driver like no entry at all, so the chosen rate can
  depend on the slot order: `Frequency.PlacementIrrelevantIff`. Without such an entry it cannot:
  `Frequency.PlacementIrrelevant`, `LoadTables.DecisionByTheMap`.
- The rate asked for does not fall as the load grows exactly when the user's rate is at least 350
  MHz (`Frequency.DecisionMonotoneIff`), and the clock does not exactly when it is 350 to 900 MHz,
  since one above 900 is not set at all (`LoadTables.ClockMonotoneIff`).
- The delay estimate is the time ahead of a new task exactly when that is below 2^31; from there on
  the driver's `int` wraps: `Tasks.DelayInEveryRun`, `Tasks.DelayExample`.
- `IOCTL_GET_LOCK` with an argument that is not one of the five lock types sets the flag without
  taking a mutex, `IOCTL_RELEASE_LOCK` then clears it without giving one back, and
  `IOCTL_COPY_PROC_INFO` unlocks a mutex the handle may not own: `LockFlags.GetWithoutMutex`,
  `LockFlags.ReleaseWithoutMutex`, `LockFlags.CopyWithoutSet`, with runs in
  `LockFlags.ReleaseExample` and `LockFlags.CopyExample`.
- While a handle is being closed its flags stay set until the last mutex is unlocked. So a flag means
  ownership exactly when its handle is not being closed with that mutex already unlocked
  (`LockFlags.FlagMeansOwner`), and two handles can have the same flag (`LockFlags.ClosingExample`).
- The interrupt handler stores first the value and then the flag, without a lock. A wait that begins
  and checks the flag between the two wipes the value out, is woken by the flag, clears it and returns
  0: the interrupt is lost (`IrqWaits.SplitExample`). A wait that ends between the two reports an
  interrupt whose flag the next one will see again (`IrqWaits.EarlyExample`). And opening or closing
  the device while its reference count is 0 overwrites the flag under a waiter
  (`IrqWaits.LostExample`, `IrqWaits.SpuriousExample`). `IrqWaits.WaitReportsIff`: in every other run,
  and in none of these, the result is right.
- One release too many leaves the reference count negative for good (`ClockGates.MatchedIff`,
  `ClockGates.NeverRecovers`, `ClockGates.OverReleaseExample`), and a request whose clocks fail leaves
  `clk_status` at 1 with gates off (`ClockGates.FailureIff`).

## Model

| member | source | states |
|---|---|---|
| EntryBits.MkPteIsC | bsp/drivers/iommu/sunxi-iommu-pgtable.c:143-157 | the page entry the masks, shifts and ors of C build is the arithmetic one of the model, in both layouts and for every address and access |
| EntryBits.MkPdeIsC | bsp/drivers/iommu/sunxi-iommu-pgtable.c:126-130 | the same for directory entries of every table frame |
| EntryBits.ReadsAreC | bsp/drivers/iommu/sunxi-iommu-pgtable.c:94-107 | the masks that read a table address and a page frame from an entry give the model's values for every 32-bit word |
| EntryBits.WordsExample | bsp/drivers/iommu/sunxi-iommu-pgtable.c:94-157 | some page and directory words as numbers, with what they decode to, in both layouts |
| Layout.PdeRoundTrip | bsp/drivers/iommu/sunxi-iommu-pgtable.c:94-130 | a directory entry made for an aligned table in the window is valid and reads back as that table's address |
| Layout.PteRoundTrip | bsp/drivers/iommu/sunxi-iommu-pgtable.h:117-129 | every page in [0x40000000, 2^VA + 0x40000000), 2^VA included, decodes to its own address and access after renumbering and packing |
| Layout.WindowRoundTrip | bsp/drivers/iommu/sunxi-iommu-pgtable.h:108-122 | cutting an in-window address to the hardware's width loses nothing: the renumbering restores it |
| Ranges.InChunk | bsp/drivers/iommu/sunxi-iommu-pgtable.c:184-193 | a page lies in a chunk exactly when it has the chunk's directory entry and a slot of the chunk, so chunks stay in one directory |
| Ranges.CoveredIff | bsp/drivers/iommu/sunxi-iommu-pgtable.c:159-171 | level-1 preparation visits the directory entry of every byte of the range if and only if (start mod D) + ((end - start) mod D) <= D |
| Ranges.FrameworkReaches | bsp/drivers/iommu/sunxi-iommu-v1.c:1568-1569 | a range of one page size of the framework, aligned to it, meets that condition |
| Ranges.LeafFields | bsp/drivers/iommu/sunxi-iommu-pgtable.c:194-199 | the n-th word of a chunk keeps valid and access bits, and holds page k + n exactly when the addition does not carry past bit 31 |
| Ranges.MapWordDecodes | bsp/drivers/iommu/sunxi-iommu-pgtable.c:173-209 | page v of a mapped range decodes to its place in the physical range if and only if its chunk does not cross a 4 GiB boundary (always in the first layout) |
| Ranges.FrameworkNoCarry | bsp/drivers/iommu/sunxi-iommu-v1.c:1568-1569 | framework-aligned addresses never carry |
| Ranges.OffsetKept | bsp/drivers/iommu/sunxi-iommu-pgtable.c:252-253 | adding the page offset before the renumbering is the same as after it, and never gives 0 |
| Tables.AddTable | bsp/drivers/iommu/sunxi-iommu-pgtable.c:109-136 | writing the entry of a new frame into an invalid slot keeps valid entries and live tables in bijection |
| Tables.RemoveTable | bsp/drivers/iommu/sunxi-iommu-pgtable.c:233-239 | clearing a valid entry and freeing its table keeps the bijection |
| Tables.FillChunk | bsp/drivers/iommu/sunxi-iommu-pgtable.c:191-199 | filling a run of one table changes exactly the chunk's pages, to their words of the range |
| Tables.ZeroChunk | bsp/drivers/iommu/sunxi-iommu-pgtable.c:224-231 | wiping a run of one table clears exactly the chunk's pages |
| Tables.DropSpan | bsp/drivers/iommu/sunxi-iommu-pgtable.c:233-239 | dropping the table of a whole span clears exactly the span's pages |
| Tables.NoneLive | bsp/drivers/iommu/sunxi-iommu-pgtable.c:280-309 | when no directory entry is valid there is no live table and no page entry |
| Tables.LiveCount | bsp/drivers/iommu/sunxi-iommu-pgtable.c:109-136 | there are as many live tables as valid directory entries: together with the entries that are not valid they are 4096 |
| Caches.FillingEnds | bsp/drivers/iommu/sunxi-iommu-pgtable.c:164-170 | a loop that has filled every missing entry has made exactly one request for each, all granted, and taken one frame for each |
| Caches.ProgressFails | bsp/drivers/iommu/sunxi-iommu-pgtable.c:164-170 | a loop that stops early has stopped at a refused request for an entry that is missing, with every request before it granted |
| Caches.EnoughFrames | bsp/drivers/iommu/sunxi-iommu-pgtable.c:159-171 | if the cache refuses nothing and there is a frame for every missing entry of the range, the loop does not fail |
| Caches.DirsSum | bsp/drivers/iommu/sunxi-iommu-pgtable.c:109-136 | the valid entries and the others of a directory add up to its length |
| Mappings.MappingAfterMap | bsp/drivers/iommu/sunxi-iommu-pgtable.c:173-209 | the words of a mapped range, read as a mapping, are the old mapping with exactly that range laid over it |
| Mappings.MappingAfterUnmap | bsp/drivers/iommu/sunxi-iommu-pgtable.c:212-241 | cleared words, read as a mapping, are the old mapping without exactly that range |
| Mappings.PagesTouched | bsp/drivers/iommu/sunxi-iommu-v1.c:668-737 | the pages of a request are exactly those some byte of it lies in |
| Mappings.MapsByte | bsp/drivers/iommu/sunxi-iommu-v1.c:668-700 | a range mapped to an address with the same page offset sends its n-th byte to the n-th byte from there, with the access asked for |
| Mappings.ChunkInside | bsp/drivers/iommu/sunxi-iommu-pgtable.c:217-222 | a delete chunk is not empty, lies in one directory entry, and the next one begins in the next entry |
| Mappings.StepForPage | bsp/drivers/iommu/sunxi-iommu-pgtable.c:164-170 | on a range that meets the condition, each page has a step of the level-1 loop that visits its directory entry |
| Mappings.DumpShows | bsp/drivers/iommu/sunxi-iommu-pgtable.c:394-483 | the scan of the words of a table shows the mapping they mean: pages, sizes, addresses and access |
| Mappings.RegionPhys | bsp/drivers/iommu/sunxi-iommu-pgtable.c:459-466 | the physical address of a dumped region is what the lookup of its start returns |
| PageTables.PageTable.constructor | bsp/drivers/iommu/sunxi-iommu-pgtable.c:312-323 | a new table maps nothing and owns no second-level table |
| PageTables.PageTable.AllocTable | bsp/drivers/iommu/sunxi-iommu-pgtable.c:109-136 | the cache is asked once; exactly if it grants the request and a frame is free, one frame is taken and the entry becomes valid; neither another entry nor a translation changes |
| PageTables.PageTable.PrepareL1 | bsp/drivers/iommu/sunxi-iommu-pgtable.c:159-171 | -ENOMEM if and only if the last request to the cache, for a visited entry that is not valid, was refused, else 0; then every visited entry is valid and one request was made for each that was not; a cache that grants them all and has the frames makes it 0; other entries, translations and the set of all frames are kept either way |
| PageTables.PageTable.PrepareL2 | bsp/drivers/iommu/sunxi-iommu-pgtable.c:173-209 | exactly the pages before the first invalid directory entry change, each to its word; without such an entry the mapping becomes the old one with the range over it; the loop is wild exactly when there is one |
| PageTables.PageTable.FreeTable | bsp/drivers/iommu/sunxi-iommu-pgtable.c:138-141 | may be called only with the base of a live table that is all zero, and the frame is free afterwards |
| PageTables.PageTable.DeleteL2 | bsp/drivers/iommu/sunxi-iommu-pgtable.c:212-241 | -EINVAL and no change for an invalid entry; else one chunk leaves the mapping, its size is returned, and a whole span also frees its table and no other |
| PageTables.PageTable.Lookup | bsp/drivers/iommu/sunxi-iommu-pgtable.c:244-257 | the mapped address plus page offset, and 0 exactly when the page is not mapped |
| PageTables.PageTable.InvalidHelper | bsp/drivers/iommu/sunxi-iommu-pgtable.c:260-277 | 0 exactly when the page is mapped |
| PageTables.PageTable.Clear | bsp/drivers/iommu/sunxi-iommu-pgtable.c:280-309 | no table is live and nothing is mapped, and every frame is free again |
| PageTables.PageTable.Dump | bsp/drivers/iommu/sunxi-iommu-pgtable.c:394-483 | the regions are those of the scan of all page entries, and they show the mapping: their pages are exactly the mapped ones, their sizes add up to 4096 times these, and each has the address and access of its pages |
| Dumps.DumpIsExact | bsp/drivers/iommu/sunxi-iommu-pgtable.c:394-483 | regions cover exactly the valid pages, without overlap and in order, uniform in access unless the access bits are 0, and neighbours have a gap between them or differ in access |
| Dumps.DumpIsTheOnlyOne | bsp/drivers/iommu/sunxi-iommu-pgtable.c:394-483 | a list of regions is the dump if and only if it has these properties |
| Dumps.InOrder | bsp/drivers/iommu/sunxi-iommu-pgtable.c:394-483 | any two regions are disjoint and increasing |
| Dumps.SizesAddUp | bsp/drivers/iommu/sunxi-iommu-pgtable.c:469 | the sizes sum to 4096 times the number of valid pages |
| Domains.Domain.Map | bsp/drivers/iommu/sunxi-iommu-v1.c:668-700 | success adds exactly the page range; -ENOMEM if and only if a request to the table cache was refused, which changes no translation, and never with a cache that grants what is missing and has the frames; frames are conserved; the second loop goes wild exactly when a directory entry of the range is still invalid, never on a range that meets the level-1 condition |
| Domains.Domain.DeleteChunk | bsp/drivers/iommu/sunxi-iommu-v1.c:726-733 | one turn of that loop; for an invalid directory entry it changes nothing and steps on by 2^32 - 22 |
| Domains.Domain.DeleteLoop | bsp/drivers/iommu/sunxi-iommu-v1.c:726-733 | the loop removes exactly the pages up to the first invalid directory entry and logs one walk-cache invalidation per chunk it comes to below V14 |
| Domains.Domain.Unmap | bsp/drivers/iommu/sunxi-iommu-v1.c:702-737 | the range up to its first invalid directory entry leaves the mapping, which is the whole range exactly when nothing behind that was mapped; the whole size is returned, the gather range grows, and every page that left is covered by the invalidations added, its directory entry too, when the registers can name the range's end |
| Domains.Domain.IovaToPhys | bsp/drivers/iommu/sunxi-iommu-v1.c:772-786 | the mapped address plus offset, or 0 |
| Domains.Domain.Free | bsp/drivers/iommu/sunxi-iommu-v1.c:851-879 | freeing a domain frees every table |
| Domains.Domain.Run | bsp/drivers/iommu/sunxi-iommu-v1.c:668-737 | any run of framework requests, with any answers of the table cache, replays on the finite map and keeps the table's invariant and its frames; a map is carried out exactly when the cache refused none of its requests, and each is when it refuses none and has 4096 frames; unmaps of at most a directory span are all carried out, larger ones exactly when mapped in full; every page mapped at any moment and no longer at the end is covered by the invalidations the run added |
| Requests.AdmissibleRequest | bsp/drivers/iommu/sunxi-iommu-v1.c:1568-1569 | a framework request meets the conditions of both preparation loops |
| Requests.SmallUnmap | bsp/drivers/iommu/sunxi-iommu-v1.c:726-733 | an unmap of at most one directory span removes all it touches, whatever is mapped there |
| Requests.LastRequestDecides | bsp/drivers/iommu/sunxi-iommu-v1.c:668-737 | after any run a page translates as the last request that touched it says |
| Invalidations.TlbCoverage | bsp/drivers/iommu/sunxi-iommu-v2.c:612-640 | from V12 on, every cleared page is in an issued TLB range if and only if the end fits the register |
| Invalidations.PtwRangeCoverage | bsp/drivers/iommu/sunxi-iommu-v2.c:651-680 | from V14 on, every touched directory entry is in an issued walk-cache range if and only if the end fits the register |
| Invalidations.PtwLoopCoverage | bsp/drivers/iommu/sunxi-iommu-v2.c:783-790 | below V14, every touched directory entry gets an invalidation inside it if and only if the range ends at or below 2^32 |
| Invalidations.UnmapCovers | bsp/drivers/iommu/sunxi-iommu-v1.c:719-733 | what an unmap takes out of the mapping is covered by what it adds to the log: pages from V12 on and directory entries in all versions, if the end fits |
| Counterexamples.DirectoryNotPrepared | bsp/drivers/iommu/sunxi-iommu-pgtable.c:164-170 | a range whose last directory entry is never looked at |
| Counterexamples.LastPageNotInvalidated | bsp/drivers/iommu/sunxi-iommu-v1.c:569-600 | the last page below 4 GiB is in no TLB range |
| Counterexamples.LastDirectoryNotInvalidated | bsp/drivers/iommu/sunxi-iommu-v1.c:601-620 | the last directory entry below 4 GiB is in no walk-cache range from V14 on |
| Counterexamples.HighDirectoryNotInvalidated | bsp/drivers/iommu/sunxi-iommu-v2.c:674-678 | the directory entry at 4 GiB is in no walk-cache invalidation below V14 |
| Counterexamples.CarryLost | bsp/drivers/iommu/sunxi-iommu-pgtable.c:194-199 | the second word of a chunk that starts in the last page below 8 GiB does not name 8 GiB |
| Counterexamples.UnmapStopsEarly | bsp/drivers/iommu/sunxi-iommu-v1.c:702-737 | with any free frame a page is mapped, and an unmap of a range with it reports the whole size and leaves it mapped |
| Bypasses.AddressesDiffer | bsp/drivers/iommu/sunxi-iommu-v2.c:103-104 | no two masters share a bypass register |
| Bypasses.InitRegister | bsp/drivers/iommu/sunxi-iommu-v2.c:547-610 | after init, successful or not, each of the 12 registers holds its bit of the shadow, and no other write of init touches a bypass register |
| Bypasses.ShadowIsLastFlag | bsp/drivers/iommu/sunxi-iommu-v2.c:479-508 | in any run a master's shadow bit is set exactly when it was last disabled, or never touched and set by default; init changes none |
| Bypasses.EveryRun | bsp/drivers/iommu/sunxi-iommu-v2.c:479-610 | after any sequence of enable, disable and init that has an init, or touches the master, its register equals its shadow bit |
| Bypasses.RegisterOfMaster | bsp/drivers/iommu/sunxi-iommu-v2.c:479-610 | by address and value: each of the 12 registers, six to a set, holds 1 if its master was last disabled or is one of the first seven and was never touched, and else 0 |
| Bypasses.InitSequence | bsp/drivers/iommu/sunxi-iommu-v2.c:547-610 | the writes of init in order, by address and value and by version, with the gating and the enable only if no flush timed out; and its three results |
| Bypasses.FlushesOf | bsp/drivers/iommu/sunxi-iommu-v2.c:511-545 | the flush writes 3 to the set's own register and 1 to that of each of its six masters |
| Bypasses.IommuDevice.EnableMaster | bsp/drivers/iommu/sunxi-iommu-v2.c:479-508 | the shadow bit and the register of one master change together, and nothing else |
| Bypasses.IommuDevice.RestoreMasters | bsp/drivers/iommu/sunxi-iommu-v2.c:580-585 | the loop leaves the shadow as it is and writes every register from it |
| Bypasses.IommuDevice.TlbFlush | bsp/drivers/iommu/sunxi-iommu-v2.c:511-545 | all 14 flush registers are written, whichever time out, and -ETIMEDOUT is returned exactly when one does |
| Bypasses.IommuDevice.HwInit | bsp/drivers/iommu/sunxi-iommu-v2.c:547-610 | the exact register writes, the unchanged shadow, the result, and when the device counts as ready |
| Tasks.TaskQueue.InsertTask | bsp/drivers/ve/cedar-ve/cedar_ve.c:953-983 | the new task goes in front of the first waiting task of lower priority |
| Tasks.TaskQueue.DelTask | bsp/drivers/ve/cedar-ve/cedar_ve.c:985-1004 | the first unmarked task of that id is marked, or -1 and no change |
| Tasks.TaskQueue.CheckDelay | bsp/drivers/ve/cedar-ve/cedar_ve.c:1006-1023 | the frame times of the tasks of at least this priority and of the running and the first one, added up in a 32-bit int |
| Tasks.TaskQueue.TimerEvents | bsp/drivers/ve/cedar-ve/cedar_ve.c:1045-1091 | due tasks, each by its own reading of jiffies, are ended and signalled, the rest kept in order, and the head started |
| Tasks.InsertKeepsOrder | bsp/drivers/ve/cedar-ve/cedar_ve.c:960-970 | insertion keeps the head first or running and the rest by priority, then arrival |
| Tasks.FireKeepsOrder | bsp/drivers/ve/cedar-ve/cedar_ve.c:1045-1091 | the timer callback keeps that order and leaves the head running |
| Tasks.ExpireKeepsLife | bsp/drivers/ve/cedar-ve/cedar_ve.c:1053-1075 | ending the due tasks keeps the lifecycle: one end signal each, with the right reason |
| Tasks.DelayIsTimeAhead | bsp/drivers/ve/cedar-ve/cedar_ve.c:1006-1023 | in an ordered queue the int the driver returns is the frame time of exactly the tasks that would stand ahead of a task inserted now, read as 32 bits, and equals it if and only if it is below 2^31 |
| Tasks.EveryRun | bsp/drivers/ve/cedar-ve/cedar_ve.c:953-1091 | after any run of insert, mark and timer: the order, and for every task at most one start and one end signal, none started after its end, RELEASE exactly if marked, inserted = queued + ended |
| Tasks.OnlyHeadRuns | bsp/drivers/ve/cedar-ve/cedar_ve.c:1077-1085 | after any run no task behind the head is running, and those behind it stand by priority, the highest first, then arrival |
| Tasks.EndsExactlyTheLate | bsp/drivers/ve/cedar-ve/cedar_ve.c:1053-1075 | a callback ends exactly the marked tasks and those whose deadline has passed by at most 2^63 at the reading made for them; each leaves the list with one end signal |
| Tasks.EndsInReverse | bsp/drivers/ve/cedar-ve/cedar_ve.c:1053-1075 | of two tasks that end in one callback the one behind is signalled first, each with its own key, id and reason |
| Tasks.MarksTheFirst | bsp/drivers/ve/cedar-ve/cedar_ve.c:985-1004 | a deletion marks the first task of its id that is not marked yet, and changes nothing else |
| Tasks.MarksNone | bsp/drivers/ve/cedar-ve/cedar_ve.c:985-1004 | and nothing when there is none |
| Tasks.SignalsNameTheirTasks | bsp/drivers/ve/cedar-ve/cedar_ve.c:953-1091 | after any run every task in the list is as it was inserted, and every signal carries the id its task was inserted with |
| Tasks.DelayInEveryRun | bsp/drivers/ve/cedar-ve/cedar_ve.c:1006-1023 | that agreement and its exact condition in every reachable queue |
| Tasks.DelayExample | bsp/drivers/ve/cedar-ve/cedar_ve.c:1009-1015 | one task of frame time 2^31 makes the estimate negative |
| MemLists.MemList.AddTail | bsp/drivers/ve/cedar-ve/ve_mem_list.h:91-95 | the ring's sequence grows by the entry at its end |
| MemLists.MemList.Add | bsp/drivers/ve/cedar-ve/ve_mem_list.h:77-81 | the ring's sequence grows by the entry at its front |
| MemLists.MemList.Del | bsp/drivers/ve/cedar-ve/ve_mem_list.h:97-109 | the entry leaves the sequence, the rest keep their order, and its links are cut |
| DmaBuffers.FirstMatchGoes | bsp/drivers/ve/cedar-ve/cedar_ve.c:1344-1385 | without unmap_all the first buffer with this file descriptor, process and file is removed, and no other |
| DmaBuffers.NoMatchStays | bsp/drivers/ve/cedar-ve/cedar_ve.c:1344-1385 | when no buffer has all three, nothing is removed |
| DmaBuffers.AllMatchesGo | bsp/drivers/ve/cedar-ve/cedar_ve.c:1344-1385 | with unmap_all exactly the buffers of the process and file are removed, whatever their file descriptors, and the rest keep their order |
| DmaBuffers.SplitHolds | bsp/drivers/ve/cedar-ve/cedar_ve.c:1369-1381 | what the list holds is what the removed buffers held plus what the kept ones hold |
| DmaBuffers.ReleaseOrder | bsp/drivers/ve/cedar-ve/cedar_ve.c:1369-1381 | each removed buffer is given back in the order unmap, detach, put, free, one buffer after the other |
| DmaBuffers.DmaDriver.MapDmaBuf | bsp/drivers/ve/cedar-ve/cedar_ve.c:1253-1318 | success appends one buffer holding four resources; every failure leaves list and held resources as they were |
| DmaBuffers.DmaDriver.Visit | bsp/drivers/ve/cedar-ve/cedar_ve.c:1345-1384 | one turn of the walk, with the successor read before the entry may be deleted |
| DmaBuffers.DmaDriver.UnmapDmaBuf | bsp/drivers/ve/cedar-ve/cedar_ve.c:1320-1388 | the list becomes the spared buffers and the log the releases of the removed ones, each once and each of something held; by the fields: without unmap_all the first buffer of this file descriptor, process and file goes, released in its order, or nothing when there is none; with it those of other processes and files stay; nothing at all happens while `bMemDevAttachFlag` is clear |
| LockFlags.StepKeeps | bsp/drivers/ve/cedar-ve/cedar_ve.c:1827-1959 | every step of a disciplined thread keeps the invariant that ties flags to mutex owners |
| LockFlags.GetTakesItsMutex | bsp/drivers/ve/cedar-ve/cedar_ve.c:1827-1853 | a get of each of the five lock types is enabled exactly while its own mutex is free, and leaves the handle idle, owning it and with its flag |
| LockFlags.ReleaseFreesItsMutex | bsp/drivers/ve/cedar-ve/cedar_ve.c:1927-1959 | a release of it frees that mutex and clears that flag, or changes nothing without the flag |
| LockFlags.SetTakesItsMutex | bsp/drivers/ve/cedar-ve/cedar_ve.c:1854-1889 | a set waits for the process-info mutex and leaves with mutex and flag, or on an error with neither |
| LockFlags.CopyFreesItsMutex | bsp/drivers/ve/cedar-ve/cedar_ve.c:1890-1914 | a copy frees that mutex and clears that flag |
| LockFlags.CloseFreesItsMutexes | bsp/drivers/ve/cedar-ve/cedar_ve.c:2173-2204 | a close frees the six mutexes as far as the handle has their flags, and clears the flags |
| LockFlags.RunsAreConsistent | bsp/drivers/ve/cedar-ve/cedar_ve.c:1827-1959 | it holds after any interleaving of any number of handles whose lock types are one of the five bits, or have none of them and not the proc-info bit |
| LockFlags.FlagMeansOwner | bsp/drivers/ve/cedar-ve/cedar_ve.c:1827-1914 | a flag set in a handle means it owns the mutex if and only if the handle is not being closed with that mutex already unlocked; of two handles with one flag, one is |
| LockFlags.ClosedOwnsNone | bsp/drivers/ve/cedar-ve/cedar_ve.c:2173-2204 | a closed handle owns no mutex, and an idle one exactly those of its flags |
| LockFlags.ClosingExample | bsp/drivers/ve/cedar-ve/cedar_ve.c:2180-2204 | a run in which a closing handle and another have the same flag |
| LockFlags.GetWithoutMutex | bsp/drivers/ve/cedar-ve/cedar_ve.c:1832-1850 | get-lock with another argument keeps the invariant exactly if every mutex bit in it was already flagged |
| LockFlags.ReleaseWithoutMutex | bsp/drivers/ve/cedar-ve/cedar_ve.c:1930-1957 | release-lock with another argument keeps it exactly if no flagged mutex bit is in it |
| LockFlags.ReleaseExample | bsp/drivers/ve/cedar-ve/cedar_ve.c:1930-1957 | a run after which a mutex is owned without a flag and nobody can take it |
| LockFlags.CopyWithoutSet | bsp/drivers/ve/cedar-ve/cedar_ve.c:1890-1914 | copy without set keeps it exactly if the handle has the flag or nobody owns the mutex |
| LockFlags.CopyExample | bsp/drivers/ve/cedar-ve/cedar_ve.c:1890-1914 | a run in which a copy without a set lets two handles have the flag |
| LockFlags.ProcInfoIsNoLockType | bsp/drivers/ve/cedar-ve/cedar_ve.c:1842-1850 | get-lock with the proc-info bit breaks it |
| Frequency.ExactlyOneRow | bsp/drivers/ve/cedar-ve/cedar_ve.c:587-606 | a load of a known format within the bound matches exactly one row, the one of its level; a larger load matches none |
| Frequency.RateByLoad | bsp/drivers/ve/cedar-ve/cedar_ve.c:737-766 | the decision by format and load, for all of both: the four levels of each listed format, the user's rate for the format of all others, nothing beyond the bound or for a format not listed |
| Frequency.MonotoneIff | bsp/drivers/ve/cedar-ve/cedar_ve.c:737-766 | the rate is non-decreasing in the load if and only if the user's rate is at least 350 MHz |
| Frequency.DecisionMonotoneIff | bsp/drivers/ve/cedar-ve/cedar_ve.c:729-766 | for one or two decoders of a known format the rate asked for is non-decreasing in their load if and only if the user's rate is at least 350 MHz |
| Frequency.TwoDecoders | bsp/drivers/ve/cedar-ve/cedar_ve.c:704-735 | two decoders use the table when their formats agree or the first one's is -1, on the sum of their products of width, height and frame rate |
| Frequency.PlacementIrrelevantIff | bsp/drivers/ve/cedar-ve/cedar_ve.c:681-768 | the decision depends only on the multiset of live entries if and only if these are not two decoders one of whose formats is -1 while the table disagrees with the user |
| Frequency.PlacementIrrelevant | bsp/drivers/ve/cedar-ve/cedar_ve.c:681-768 | where no live entry has format -1 the decision does not depend on the order |
| Frequency.PlacementExample | bsp/drivers/ve/cedar-ve/cedar_ve.c:704-708 | two live entries whose order changes the rate |
| Frequency.OneSmallLoad | bsp/drivers/ve/cedar-ve/cedar_ve.c:717 | the rate for one known decoder from its fields: width * height * frame rate, with 60 for none, against the four levels |
| Frequency.TwoSmallLoads | bsp/drivers/ve/cedar-ve/cedar_ve.c:717 | the rate for two from their fields: products of at most 7680 * 4320 * 60 do not overflow 32 bits, and their sum decides |
| Frequency.OneDecoder | bsp/drivers/ve/cedar-ve/cedar_ve.c:700-717 | one decoder of any format: the table decides on that product cut to 32 bits |
| Frequency.FullHdExample | bsp/drivers/ve/cedar-ve/cedar_ve.c:587-606 | a 1920 x 1088 H264 decoder at 60 frames, given or by default, asks for 350 MHz |
| LoadTables.LoadTable.Update | bsp/drivers/ve/cedar-ve/cedar_ve.c:629-679 | the slots and the result are those of the slot-level step: the key's slot, or else the first free one, is written, and -1 comes only with no slot changed; on the map, exactly the key's entry is lost, gained or replaced |
| LoadTables.LoadTable.Adjust | bsp/drivers/ve/cedar-ve/cedar_ve.c:681-768 | the slots and the clock are those of the step: missing frame rates become 60, and the clock is what the decision on the live entries says |
| LoadTables.LoadTable.FindFree | bsp/drivers/ve/cedar-ve/cedar_ve.c:655-658 | a free slot is found exactly when the map has fewer than 16 keys |
| LoadTables.SlotWritten | bsp/drivers/ve/cedar-ve/cedar_ve.c:669-675 | writing the key's slot, or a free one, changes that key of the map alone and keeps keys unique |
| LoadTables.UpdateRefines | bsp/drivers/ve/cedar-ve/cedar_ve.c:629-679 | writing the slots refines the update of the map, result included, and keeps keys unique |
| LoadTables.ViewSize | bsp/drivers/ve/cedar-ve/cedar_ve.c:302 | there are as many keys as used slots |
| LoadTables.SameViewSameLive | bsp/drivers/ve/cedar-ve/cedar_ve.c:694-719 | tables with the same map have the same live entries, in whatever slots |
| LoadTables.DecisionOfTheMap | bsp/drivers/ve/cedar-ve/cedar_ve.c:681-768 | so they get the same decision, but for formats -1 |
| LoadTables.ClockMonotoneIff | bsp/drivers/ve/cedar-ve/cedar_ve.c:537-549 | the clock itself is non-decreasing in the load, whatever it was, if and only if the user's rate is from 350 to 900 MHz |
| LoadTables.ClockForOne | bsp/drivers/ve/cedar-ve/cedar_ve.c:537-768 | after any run that leaves one known decoder, adjusting sets the clock its fields call for, if that is 50 to 900 MHz |
| LoadTables.ClockForTwo | bsp/drivers/ve/cedar-ve/cedar_ve.c:537-768 | after any run that leaves two of one format it is that of the sum of their products, and the clock stays beyond the bound |
| LoadTables.ClockForMany | bsp/drivers/ve/cedar-ve/cedar_ve.c:729-733 | after any run that leaves more than two channels, or an encoder, it is the user's rate |
| LoadTables.EveryRun | bsp/drivers/ve/cedar-ve/cedar_ve.c:629-768 | after any run from 16 empty slots the slots have unique keys and hold the replayed map, of at most 16 keys |
| LoadTables.UpdateInEveryRun | bsp/drivers/ve/cedar-ve/cedar_ve.c:660-665 | after any run an update reports -1 exactly when 16 other keys are in the table, and then changes nothing |
| LoadTables.LastUpdateDecides | bsp/drivers/ve/cedar-ve/cedar_ve.c:629-679 | in a run that names at most 16 channels the table says of each what its last update said, and nothing of those removed or never named |
| LoadTables.DecisionInEveryRun | bsp/drivers/ve/cedar-ve/cedar_ve.c:681-768 | two runs that leave the same map ask for the same rate, but for formats -1 |
| LoadTables.DecisionByTheMap | bsp/drivers/ve/cedar-ve/cedar_ve.c:681-768 | and always where no channel in the map has format -1 |
| IrqWaits.EveryRun | bsp/drivers/ve/cedar-ve/cedar_ve.c:502-517 | flag, value, the handler's progress and positions after any interleaving of the waiter with the handler's two stores |
| IrqWaits.WaitReturns | bsp/drivers/ve/cedar-ve/cedar_ve.c:1694-1705 | a wait returns 1 exactly when the flag was set at its check or a handler stored the value since it began |
| IrqWaits.WaitReportsIff | bsp/drivers/ve/cedar-ve/cedar_ve.c:502-517 | the result says whether a handler finished since the previous wait cleared the flag, if and only if no open or release with reference count 0 misled the wait, no handler was split around its begin and check, and its 1 is not the value of a handler whose flag is still to come |
| IrqWaits.WaitReports | bsp/drivers/ve/cedar-ve/cedar_ve.c:1694-1705 | without such an open or release and such a handler a wait returns 1 exactly when an interrupt was handled in that window |
| IrqWaits.InterruptNotLost | bsp/drivers/ve/cedar-ve/cedar_ve.c:502-517 | then the first wait to return after an interrupt returns 1 |
| IrqWaits.AtomicIsWhole | bsp/drivers/ve/cedar-ve/cedar_ve.c:502-517 | a handler the waiter never comes between is never split or unfinished |
| IrqWaits.LateNotLost | bsp/drivers/ve/cedar-ve/cedar_ve.c:1703 | a flag stored after the wait has cleared it is still set for the next wait, even when the value was wiped out |
| IrqWaits.ZeroMeansTimeout | bsp/drivers/ve/cedar-ve/cedar_ve.c:1702-1705 | a wait that was woken and yet returns 0 was woken after its check by a release with reference count 0, or by a handler that had stored its value before the wait began |
| IrqWaits.SplitExample | bsp/drivers/ve/cedar-ve/cedar_ve.c:514-515 | a run without any open or release in which an interrupt is lost between the two stores |
| IrqWaits.EarlyExample | bsp/drivers/ve/cedar-ve/cedar_ve.c:514-515 | a run in which a wait reports an interrupt before its flag is stored |
| IrqWaits.LostExample | bsp/drivers/ve/cedar-ve/cedar_ve.c:2157-2162 | a run in which an open wipes out an interrupt |
| IrqWaits.SpuriousExample | bsp/drivers/ve/cedar-ve/cedar_ve.c:2226-2231 | a run in which a release makes one up |
| ClockGates.GatesFollowStatus | bsp/drivers/ve/cedar-ve/cedar_ve.c:836-951 | after any run whose clock calls succeed the power reference and the reset line follow clk_status, and so do the net counts of bus_ve, bus_ve3, mbus_ve3 and ve on SUN50IW12P1, of bus, mbus and ve elsewhere; the other gates stay at 0 |
| ClockGates.Results | bsp/drivers/ve/cedar-ve/cedar_ve.c:1606-1655 | the result of every ioctl and what it does to the count, in every state: a request gets -EFAULT exactly if the count is negative, or it is the first with the clocks off and one of these gates refuses |
| ClockGates.GatesEnabled | bsp/drivers/ve/cedar-ve/cedar_ve.c:858-905 | a first request turns these gates on in the order of the source, up to the first that refuses |
| ClockGates.ClocksFollowHolders | bsp/drivers/ve/cedar-ve/cedar_ve.c:1606-1655 | in a matched run ref_count is requests minus releases, and while awake clk_status is 1 exactly when it is positive |
| ClockGates.MatchedIff | bsp/drivers/ve/cedar-ve/cedar_ve.c:1634-1654 | that holds if and only if no release came while the count was 0 |
| ClockGates.NeverRecovers | bsp/drivers/ve/cedar-ve/cedar_ve.c:1606-1613 | a negative count stays negative and every request is refused |
| ClockGates.OverReleaseExample | bsp/drivers/ve/cedar-ve/cedar_ve.c:1634-1642 | after one release too many the engine is refused, and a suspend and a resume leave its clocks on |
| ClockGates.FailureIff | bsp/drivers/ve/cedar-ve/cedar_ve.c:1615-1627 | a first request keeps the invariant if and only if none of the platform's gates, named, refuses; after a failure the next one succeeds without touching a gate |
| ClockGates.CedarClock.GatesOn | bsp/drivers/ve/cedar-ve/cedar_ve.c:858-905 | the gates before the first failing one gain one, in the platform's order, and -EINVAL unless all do |
| ClockGates.CedarClock.GatesOff | bsp/drivers/ve/cedar-ve/cedar_ve.c:931-939 | every gate of the platform loses one |
| ClockGates.CedarClock.EngineReq | bsp/drivers/ve/cedar-ve/cedar_ve.c:1606-1628 | the request step, with its error paths |
| ClockGates.CedarClock.EngineRel | bsp/drivers/ve/cedar-ve/cedar_ve.c:1636-1655 | the release step, with its error paths |
| ClockGates.CedarClock.ResumeDevice | bsp/drivers/ve/cedar-ve/cedar_ve.c:2311-2332 | clocks come back exactly if the reference count is not 0 |

## Left out

- Domains.Domain.Unmap: it and Domains.Domain.DeleteLoop ask for a range inside the aperture and, if one of its directory entries is not valid, for less than 4 GiB: in a larger range the loop goes on from an address that is no page address. The framework's pages are at most 16 MiB.
- Domains.Domain.DeleteLoop: see Domains.Domain.Unmap.
- Domains.Domain.Map: asks for a range inside the aperture, and says nothing about what a write through an invalid directory entry does.
- Domains.Domain.Run: its unmap requests of more than one directory span are those for ranges that are mapped in full at that moment.
- PageTables.PageTable.AllocTable: what the cache answers to each request is an input of the table, and any free frame may be the one it gives; frames are reached through the address in the directory entry only.
- Frequency.TwoSmallLoads: takes each product width * height * frame_rate as a number within the bound; a product that overflows the signed 32-bit type wraps around in the model's sum.
- IrqWaits.WaitReports: one waiter on the decoder interrupt, and stores that take effect in the order of the code; the encoder and JPEG flags are the same code.
- ClockGates.ClocksFollowHolders: needs clock calls that succeed and user requests only while the system is awake.
- LockFlags.RunsAreConsistent: one thread per handle, and lock types the driver knows; the conditions for others are separate lemmas.
- `count` of map and unmap: the drivers map one page size and report that, whatever the count.
- `sunxi_zap_tlb`, the flush and the release of the directory in domain_free, and the time at which the hardware refills its caches: only the log of issued invalidations is modelled.
- The I/O address trace lists of the IOMMU drivers, which link nodes whose `next` is never set.
- DMA cache maintenance, `WARN_ON`, and the formatting of the dump: its output is a sequence of regions.
- `USE_CEDAR_ENGINE` is undefined in the driver (bsp/drivers/ve/cedar-ve/cedar_ve.c:85), so the ioctls that feed the task queue are compiled out; the queue's functions are modelled as they stand.
- The task lists are sequences of tasks: the kernel's `list_head` links are not part of this model. Time is a 64-bit jiffies counter compared as `time_after` does.
- The poison values a deleted DMA list entry gets are null links here.
- Lock words and the bypass shadow are sets of bit positions. The lock flags and the interrupt wait are machines on values, since their steps belong to several threads.
- `debug_root` is not null, `down_interruptible` is not interrupted, and copying from user memory in set and copy proc info fails or succeeds by choice.
- The load adjustment is one step although the driver takes no lock around it. `remove_case_load_param_by_process_id_sun55iw3`, which stops after the first match.
- `cedar_engine_for_timer_rel`, `IOCTL_SET_REFCOUNT`, `IOCTL_ENABLE_VE` and `IOCTL_DISABLE_VE`; the `power_clk` of one platform; a device whose initialisation is not complete, which refuses to turn its clocks on.
- Register contents other than the bypass registers: a flush register that clears itself, and what the enable register reads, are inputs of init.
- `sunxi-iommu-v3.c`, near duplicate of the other two; `sunxi-iommu-common.c`, `sunxi-iommu-debug.c`; interrupts, probe and removal, device tree, mmap, sysfs and debugfs.
