# A verified model of the Urubu kernel

Urubu is a small kernel for amd64 PCs. This project models three connected parts of it and proves what they are for.

**The memory stack.** The interval map of free regions (`FreeMap`), the boot code that fills it from the
Multiboot memory map (`BootMap`) and turns it into a table of free pages (`Boot`), the page allocator (`PhysicalPages`), the slab
allocator on top of it (`Slabs`), the four-level page tables of the AMD64 Architecture Programmer's Manual, volume 2,
section 5.3 (`PageTables`), the virtual memory manager (`VirtualMemory`), writing into another address space
(`UserMemory`), the ELF loader (`ElfLoader`) and what all processes together can rely on (`Isolation`). Each layer represents
something simple: a set of addresses, a set of pages, a partial map from pages to frames, a byte image; the lemmas say so.

**Threads and blocking communication.** `Machine` is a state machine whose steps are the stretches of kernel code
that run with interrupts off; any step may come between any two others. Threads, mutexes, message ports and the server
registry are its state, `Guarantees` says what its invariant means, and `Steps` what each step changes and leaves, field by
field. `Scheduling` is the code itself: threads linked
into queues by one link field, and methods for the kernel operations, each proved to take exactly one step of
the machine. `HashTables` is the chained table in which ports, servers and threads are registered.

**The device protocol.** `DeviceServer` and `DeviceClient` are the two ends, with synchronously finishing handlers
and callbacks that submit further requests; both keep their waiting requests in the linked queue of `RequestQueues`.
`DevicePipeline` is the protocol between any number of connections and devices as a state machine, and `DeviceSystem`
puts the objects of both ends together: each of its methods takes them through a run of that machine.

Where the code mutates something, a class does, and its methods are proved against functions on values; what
the code promises is then proved of those functions. What the code stores or hands out is said in numbers of its own as well: the bits
of page table entries, the addresses of frames, the bytes of sections, the fields of messages.

## Where the code departs from its intent

- `memory_map_alloc` dereferences a null predecessor when the first entry of the list has exactly the requested size
  (`source/kernel/src/mm/map.c:245`). `MemoryMap.Alloc` says that it does so exactly then, `ExactFitAtHead` gives the inputs,
  and `Process.Alloc`, `Process.Map`, `Process.MapShmem` and `Boot.InitPages` pass it on.
- The memory size is computed in 32 bits (`source/kernel/arch/amd64/src/mm/pmm.c:59`), from the memory below the first hole
  only. `MemorySizeExact` says when the arithmetic is right. The table of free pages is made for that size, and nothing
  checks it when it is filled (`source/kernel/src/mm/pmm.c:86-90`): `Outcome` says exactly when the filler writes past it,
  `TableFits` gives a sufficient condition, `TableOverrun` a machine on which it happens.
- The filler steps through a region from its base, aligned or not: `PagesAligned` says exactly when it lists page addresses.
- A range in use that cannot be excluded at boot for want of an entry stays free, unnoticed (`pmm.c:83-91`). `Start` says
  that boot hands out or overwrites no page in use exactly when `Fits` holds, a count that a loader can make beforehand
  (`FitsIsACount`); `KernelHandedOut` gives a machine on which a page of the running kernel is handed out.
- `mutex_unlock` does not ask who holds the mutex (`source/kernel/src/sync/mutex.c:44-59`). `UnlockExclusive` says exactly
  when an unlock keeps mutual exclusion, `StrayUnlockBreaks` gives a run after which two threads are inside.
- The tables above a page keep the flags with which they were hung in (`source/kernel/arch/amd64/src/mm/vmm.c:60-80`): `EntriesMade`
  says that a mapping leaves older links as they are, so a user page below a table that was made without the user flag stays closed.
- A frame address is or-ed into its page table entry as it is (`source/kernel/arch/amd64/src/mm/vmm.c:225`): `LeafWord` is the
  resulting entry for any address. Only an aligned address comes back from the walk; the mapping results of
  `VirtualMemory` say so.
- Registry names are cut to 31 characters when stored but compared in full (`source/kernel/src/ipc/server.c:45`, `:57`).
  `RegisterServes` and `LookupServes` say exactly when a sleeper is left under a registered name, `LongNamesStrand` gives a run.
- `hashtable_remove` leaves the item count as it is; `HashTable.Size` says what the count means.
- Both ends of the device protocol ignore it when the kernel refuses a message (`source/lib/devman/src/client/async.c:65`,
  `source/lib/devman/src/server/device.c:160`), and the server's out-of-memory reply goes to the port whose number is the
  client's token (`device.c:219`). `StalledIffFailed` says that a request is stalled for good exactly when one of these
  happened to its connection; `LossesHappen` gives a run for each.

## Model

| member | source | states |
|---|---|---|
| FreeMap.CollisionMeaning | source/kernel/src/mm/map.c:39-57 | the five collision answers in terms of shared addresses |
| FreeMap.SubtractIsDifference | source/kernel/src/mm/map.c:151-227 | what exclusion leaves is the set difference of addresses |
| FreeMap.SubtractSorted | source/kernel/src/mm/map.c:151-227 | exclusion keeps entries non-empty, sorted and disjoint |
| FreeMap.ReplaceKeeps | source/kernel/src/mm/map.c:161-224 | one turn of the exclusion loop keeps the final result, and at most one entry is ever split |
| FreeMap.FirstFitIsLowest | source/kernel/src/mm/map.c:234-238 | the entry that is taken has the lowest base of all that are large enough |
| FreeMap.MemoryMap.Add | source/kernel/src/mm/map.c:60-102 | succeeds exactly when an entry is left and no address is shared with any region, though the search stops early; then the region is added, else nothing changes |
| FreeMap.MemoryMap.ExcludeInside | source/kernel/src/mm/map.c:105-148 | the entry is replaced by what remains of it; fails exactly when a split lacks an entry; its panics are unreachable |
| FreeMap.MemoryMap.ExcludeAt | source/kernel/src/mm/map.c:170-219 | each collision case leaves exactly what remains of the entry; its panics are unreachable |
| FreeMap.MemoryMap.Exclude | source/kernel/src/mm/map.c:151-227 | removes the range from the whole map, or changes nothing exactly when a split lacks an entry; takes at most one entry |
| FreeMap.MemoryMap.Alloc | source/kernel/src/mm/map.c:230-263 | first fit; faults exactly on an exact fit at the head |
| FreeMap.MemoryMap.AllocAt | source/kernel/src/mm/map.c:266-320 | succeeds exactly when one entry contains the range and a split has its entry; then the range is removed, else nothing changes |
| FreeMap.ExactFitAtHead | source/kernel/src/mm/map.c:244-246 | inputs on which the allocation dereferences null |
| BootMap.MemorySizeExact | source/kernel/arch/amd64/src/mm/pmm.c:59 | the 32-bit size is the real one less a multiple of four gigabytes, so exact below four gigabytes |
| BootMap.AvailableMeaning | source/kernel/arch/amd64/src/mm/pmm.c:61-78 | the available regions are those of the records of type 1, in the order of the records, each found behind the one before |
| BootMap.PlainRange | source/kernel/arch/amd64/src/mm/pmm.c:88-91 | a module that does not end before it begins, and whose end can be rounded up in 32 bits, is excluded from its start to its rounded end |
| BootMap.OccupiedIsUsed | source/kernel/arch/amd64/src/mm/pmm.c:83-91 | every byte of the first megabyte, the kernel and such modules is excluded |
| BootMap.UsedIsOccupied | source/kernel/arch/amd64/src/mm/pmm.c:83-91 | and no other page address is |
| BootMap.PageIsClear | source/kernel/arch/amd64/src/mm/pmm.c:83-91 | no byte of a page that is not excluded lies in the kernel or such a module |
| BootMap.UsualIsFine | source/kernel/arch/amd64/src/mm/pmm.c:33-91 | on whole pages of memory without overlaps and no more than 32 ranges in all, everything is aligned, the entries suffice and all available memory is kept |
| BootMap.AddAvailable | source/kernel/arch/amd64/src/mm/pmm.c:61-78 | the cursor loop leaves the available regions that share no address with an earlier one, as long as entries last, and uses up an entry for a refused one too |
| BootMap.ExcludeUsed | source/kernel/arch/amd64/src/mm/pmm.c:83-91 | the range is removed, or exactly for want of an entry nothing changes, and boot goes on |
| BootMap.BuildFreeMap | source/kernel/arch/amd64/src/mm/pmm.c:54-94 | the map has exactly the regions that the exclusions leave, those without an entry skipped; which addresses are excluded is said by OccupiedIsUsed and UsedIsOccupied |
| BootMap.FreeMapIsExact | source/kernel/arch/amd64/src/mm/pmm.c:83-91 | with enough entries the map is the kept memory minus the first megabyte, the kernel and the modules |
| BootMap.FreeMapIsFreeIff | source/kernel/arch/amd64/src/mm/pmm.c:80-91 | the map is free of memory in use exactly when the entries suffice for the splits; else a whole range in use stays in it |
| BootMap.FitsIsACount | source/kernel/arch/amd64/src/mm/pmm.c:33-45 | for regions that do not overlap: an entry for each region and each split |
| BootMap.EnoughEntries | source/kernel/arch/amd64/src/mm/pmm.c:33-45 | an entry for each region and each range in use is enough |
| BootMap.FreeMapIsAvailable | source/kernel/arch/amd64/src/mm/pmm.c:61-91 | whatever the entries, only available memory above the first megabyte is in the map |
| Boot.MapPagesMeaning | source/kernel/src/mm/pmm.c:86-90 | the filler lists the addresses at page distances from the base of each region, once each |
| Boot.PagesAligned | source/kernel/src/mm/pmm.c:86-90 | they are page addresses exactly when every region begins with a page |
| Boot.AlignedPages | source/kernel/src/mm/pmm.c:86-90 | and then they are the page addresses in the map |
| Boot.FillTable | source/kernel/src/mm/pmm.c:86-90 | appends the pages of a region to the table; when it would write past it |
| Boot.TableFits | source/kernel/src/mm/pmm.c:96-99 | a table made for a memory size has a slot for each whole page below it |
| Boot.TableSizeMeaning | source/kernel/src/mm/pmm.c:96-99 | the table takes the fewest whole pages that hold eight bytes for each page of memory |
| Boot.OutcomeMeaning | source/kernel/src/mm/pmm.c:93-111 | the null dereference exactly on a first region of just the size, no memory exactly when no region is large enough, else the table is at the lowest one that is, out of reach or overrun exactly as stated |
| Boot.InitPages | source/kernel/src/mm/pmm.c:93-111 | for any map: when it panics, faults or writes past the table, and that otherwise the table lists the pages of the rest, each once |
| Boot.Start | source/kernel/arch/amd64/src/start.c:139-145 | for any well-formed memory map: how boot ends; which pages it hands out, each once; no overrun when the memory lies within the computed size; on page boundaries and with enough entries no byte of a page handed out or of the table lies in the first megabyte, the kernel or a module, and every other kept page is handed out; nothing occupied is handed out or overwritten exactly when the entries suffice |
| Boot.NothingOccupied | source/kernel/arch/amd64/src/mm/pmm.c:83-91 | of pages outside the excluded ranges no byte is occupied, and no other page is withheld |
| Boot.UsedIsHandedOut | source/kernel/arch/amd64/src/start.c:139-145 | without enough entries a page in use is handed out or overwritten |
| Boot.KernelHandedOut | source/kernel/arch/amd64/src/mm/pmm.c:83-91 | a memory map of 32 regions on which boot hands out a page of the kernel |
| Boot.TableOverrun | source/kernel/src/mm/pmm.c:86-90 | a machine with memory above a hole: the filler writes past the table into a page that it lists itself |
| PhysicalPages.TakePage | source/kernel/src/mm/pmm.c:38-53 | handing out a page conserves the boot pages |
| PhysicalPages.GiveBackPage | source/kernel/src/mm/pmm.c:56-69 | taking back any live page, in any order, conserves them |
| PhysicalPages.Pmm.Alloc | source/kernel/src/mm/pmm.c:38-53 | the next free page, never 0 nor live, or 0 when there is none |
| PhysicalPages.Pmm.Free | source/kernel/src/mm/pmm.c:56-69 | when it panics; a live page never makes it panic and becomes free, though the slot is overwritten |
| PhysicalPages.Pmm.Statistics | source/kernel/src/mm/pmm.c:72-83 | used memory is 4096 bytes for each live page, total memory 4096 for each boot page |
| Slabs.InitIsLegal | source/kernel/src/mm/slab.c:67-85 | for which object sizes a cache exists, and that it wastes less than one object |
| Slabs.HeaderRecoversPage | source/kernel/src/mm/slab.c:60-64 | freeing a slab gives back the very page it was created from |
| Slabs.ObjectFits | source/kernel/src/mm/slab.c:139 | objects are aligned, clear of the header, and masking their address finds it |
| Slabs.ObjectsApart | source/kernel/src/mm/slab.c:46-54 | objects do not overlap |
| Slabs.FreshListIsAll | source/kernel/src/mm/slab.c:46-54 | the built free list has every object once |
| Slabs.CreatedIsListed | source/kernel/src/mm/slab.c:93-106 | adding a fresh slab keeps every other slab and all lists in order |
| Slabs.TakenKeeps | source/kernel/src/mm/slab.c:108-126 | an allocation hands out an object that was not live and keeps the invariant |
| Slabs.ReleasedKeeps | source/kernel/src/mm/slab.c:134-191 | a free keeps the invariant; the page goes back exactly when no object of it is live |
| Slabs.TakeMeaning | source/kernel/src/mm/slab.c:88-131 | an allocation takes no page while a slab has a free object, and then the first one of the first such slab; else exactly the next free page, and of it the last object |
| Slabs.GiveMeaning | source/kernel/src/mm/slab.c:134-191 | a freed object is the first free one of its slab, a slab that was full the first with one; an unused slab leaves the lists and the page of the object is the next free page |
| Slabs.EmptyCacheHoldsNothing | source/kernel/src/mm/slab.c:155-188 | without live objects the cache holds no page |
| Slabs.HeldPageHasLiveObject | source/kernel/src/mm/slab.c:155-188 | every held page has a live object |
| Slabs.PoolStepKeeps | source/kernel/src/mm/slab.c:88-191 | an allocation, a free or anybody else's use of the page allocator keeps cache and allocator consistent and touches no page of others |
| Slabs.RunReturnsPages | source/kernel/src/mm/slab.c:88-191 | over any run of them each boot page is free, held by others or held by the cache; allocations and frees leave the pages of others as they are; without live objects every page is back |
| Slabs.SlabCache.ReturnsPages | source/kernel/src/mm/slab.c:88-191 | the same from any state of a cache and its page allocator |
| Slabs.Unlink | source/kernel/src/mm/slab.c:158-180 | the search loop removes exactly the slab from its list |
| Slabs.SlabCache.SlabCreate | source/kernel/src/mm/slab.c:30-57 | a page that was not live becomes a slab with every object free |
| Slabs.SlabCache.Alloc | source/kernel/src/mm/slab.c:88-131 | fails exactly without a partial slab and a free page; else a new live object, the first free one of the first partial slab without taking a page, or the last of a new page; is the allocation function on pools |
| Slabs.SlabCache.Free | source/kernel/src/mm/slab.c:134-191 | the object is no longer live, its page goes back exactly when unused; the panic is unreachable; is the free function on pools |
| PageTables.WordsAreNumbers | source/kernel/arch/amd64/src/mm/vmm.c:54-57 | splitting an entry into frame and flags by the page mask loses nothing |
| PageTables.LeafWordIsWord | source/kernel/arch/amd64/src/mm/vmm.c:225 | or-ing the flags into an address gives a non-zero entry whose masked frame is the page of the address; for an aligned address it is the address and the flags |
| PageTables.LeafIsEntry | source/kernel/arch/amd64/src/mm/vmm.c:38-48 | the stored number is present, writable exactly when asked for or bit 1 of the address is set, open to user code exactly when asked for or bit 2 is set, and the address in all bits above |
| PageTables.WordIsEntry | source/kernel/arch/amd64/src/mm/vmm.c:38-48 | for an aligned frame: present, writable and open exactly as asked for, and masked it is the frame |
| PageTables.WalkIsNumberWalk | source/kernel/arch/amd64/src/mm/vmm.c:231-250 | walking the tables of frames and flags is walking the stored 64-bit numbers with the mask |
| PageTables.TranslationIsMasked | source/kernel/arch/amd64/src/mm/vmm.c:247 | the address that a translation answers is the stored number masked |
| PageTables.PathIsInjective | source/kernel/arch/amd64/src/mm/vmm.c:62-225 | the four 9-bit indices tell user pages apart |
| PageTables.PathOfAddress | source/kernel/arch/amd64/src/mm/vmm.c:62-225 | an address has the path of its page |
| PageTables.EntryStepKeeps | source/kernel/arch/amd64/src/mm/vmm.c:60-132 | hanging in a zeroed table keeps the tree and changes no translation |
| PageTables.GetPtReaches | source/kernel/arch/amd64/src/mm/vmm.c:151-169 | the page table found or made is the one that the walk reaches |
| PageTables.GetPtLinks | source/kernel/arch/amd64/src/mm/vmm.c:60-132 | on the way to a page table, links stay as numbers, and new ones are present, writable and open to user code exactly as asked for |
| PageTables.LinksAlong | source/kernel/arch/amd64/src/mm/vmm.c:60-132 | every link above a user page is present and writable |
| PageTables.MapsExactlyOnePage | source/kernel/arch/amd64/src/mm/vmm.c:207-228 | success translates exactly this page of this process anew, failure nothing; entries 256 to 511 of every root stay; when it fails |
| PageTables.MapWritesNumbers | source/kernel/arch/amd64/src/mm/vmm.c:207-228 | the four numbers on the way to a page that was mapped: the entry has the address and exactly the access asked for; links are present and writable, old ones unchanged, new ones open as asked for |
| PageTables.NewSpaceIsEmpty | source/kernel/arch/amd64/src/mm/vmm.c:141-148 | a new address space maps nothing and disturbs no other |
| PageTables.AddressSpaces.GetEntry | source/kernel/arch/amd64/src/mm/vmm.c:60-132 | takes the specified table step on the frames in place |
| PageTables.AddressSpaces.GetPageTable | source/kernel/arch/amd64/src/mm/vmm.c:151-169 | takes the specified three table steps |
| PageTables.AddressSpaces.Map | source/kernel/arch/amd64/src/mm/vmm.c:207-228 | is the mapping function that MapsExactlyOnePage is about, and success leaves the four numbers of MapWritesNumbers in the tables |
| PageTables.AddressSpaces.Translate | source/kernel/arch/amd64/src/mm/vmm.c:231-250 | answers the walk through the four tables, also as numbers |
| PageTables.AddressSpaces.Create | source/kernel/arch/amd64/src/proc/process.c:33-58 | a new root with the kernel's half, or failure exactly without a process record or a free frame |
| VirtualMemory.AllocFromKeeps | source/kernel/src/mm/vmm.c:138-147 | the allocation loop changes no other page and fails only without frames: "already mapped" never comes |
| VirtualMemory.AllocFromMaps | source/kernel/src/mm/vmm.c:138-147 | success maps the whole range to pairwise distinct frames that were free |
| VirtualMemory.MappedToIsAccessible | source/kernel/src/mm/vmm.c:138-147 | the numbers of an allocated range are present, writable and open exactly as asked for |
| VirtualMemory.MapFromKeeps | source/kernel/src/mm/vmm.c:88-92 | the same for mapping given frames |
| VirtualMemory.MapFromMaps | source/kernel/src/mm/vmm.c:88-92 | success maps every page to the page of its address |
| VirtualMemory.AlignedFramesMapped | source/kernel/src/mm/vmm.c:88-92 | and to the very address when that is aligned |
| VirtualMemory.FramesFromAligned | source/kernel/src/mm/vmm.c:88-92 | the frames from an aligned address on are aligned, also where they wrap around |
| VirtualMemory.EachIsFrom | source/kernel/src/mm/vmm.c:88-92 | page k of a mapped range has the number and the frame of the address k pages above the first, at 64 bits |
| VirtualMemory.EachIsBlocks | source/kernel/src/mm/vmm.c:175-190 | page i of block b is mapped behind all pages of the blocks before, with its number |
| VirtualMemory.TakingKeepsAgreement | source/kernel/src/mm/vmm.c:71-202 | free map and mapped pages stay disjoint and aligned, also after an uncleaned error exit |
| VirtualMemory.FreeIsUnmapped | source/kernel/src/mm/vmm.c:71-202 | a range taken from the free map holds no mapped page |
| VirtualMemory.OthersStillAgree | source/kernel/src/mm/vmm.c:71-202 | no process disturbs the agreement of another |
| VirtualMemory.ContextInit | source/kernel/src/mm/vmm.c:291-302 | the user region without the null page is free |
| VirtualMemory.Process.AllocPage | source/kernel/src/mm/vmm.c:140-146 | one page of an allocation: a frame is taken, then mapped |
| VirtualMemory.Process.Alloc | source/kernel/src/mm/vmm.c:106-158 | all outcomes; success maps the range to distinct fresh frames with the access asked for, every outcome keeps the agreement and is the allocation loop on a range without mapped pages |
| VirtualMemory.Process.Map | source/kernel/src/mm/vmm.c:71-103 | all outcomes; success maps page k to the frame at phys + 4096 k, wrapped at 64 bits only beyond the address space, with the access asked for |
| VirtualMemory.Process.MapShmem | source/kernel/src/mm/vmm.c:161-202 | all outcomes; success maps each page of each block at its place with the access asked for, and pages of the range beyond them stay unmapped |
| UserMemory.ChunkIsFlat | source/kernel/src/mm/vmm.c:219-235 | writing a chunk within a page is writing its bytes one at a time |
| UserMemory.WriteChunk | source/kernel/src/mm/vmm.c:211-235 | one turn of the copy loop, with its failures |
| UserMemory.CopyTo | source/kernel/src/mm/vmm.c:205-239 | the page-wise copy equals the flat write, outcome included |
| UserMemory.Clear | source/kernel/src/mm/vmm.c:242-274 | the page-wise clear equals the flat write of zeros |
| UserMemory.FlatWriteSucceeds | source/kernel/src/mm/vmm.c:211-217 | a write succeeds exactly when every page of the range can be reached |
| UserMemory.FlatWriteReads | source/kernel/src/mm/vmm.c:205-239 | afterwards every byte reads back, given distinct frames |
| UserMemory.FlatWriteElsewhere | source/kernel/src/mm/vmm.c:205-239 | no byte of memory changes but those behind the range |
| Isolation.AllocPrivate | source/kernel/src/mm/vmm.c:138-147 | with or without success, an allocation maps pages to frames that nobody else has |
| Isolation.StepKeeps | source/kernel/src/mm/vmm.c:71-274 | every operation of any process, and of the kernel on the page allocator, keeps allocated frames private |
| Isolation.FramesAreOwn | source/kernel/src/mm/vmm.c:106-158 | after any run no two allocated pages of all processes share a frame, and none is free, a page table or the kernel's |
| Isolation.WritesAreIsolated | source/kernel/src/mm/vmm.c:205-274 | after any run, a copy or clear of allocated memory succeeds, and of all the memory that all processes allocated exactly the bytes of its range change |
| Isolation.SharedMemory.CreateSpace | source/kernel/arch/amd64/src/proc/process.c:33-58 | is a step of such a run |
| Isolation.SharedMemory.Allocate | source/kernel/src/mm/vmm.c:106-158 | is a step of such a run; on success the whole range is the process's own |
| Isolation.SharedMemory.MapFrames | source/kernel/src/mm/vmm.c:71-103 | is a step of such a run, with the frames at phys + 4096 k |
| Isolation.SharedMemory.MapShared | source/kernel/src/mm/vmm.c:161-202 | is a step of such a run with the pages of the blocks in their order, or none when no range was found |
| Isolation.SharedMemory.CopyTo | source/kernel/src/mm/vmm.c:205-239 | is a step of such a run |
| Isolation.SharedMemory.Clear | source/kernel/src/mm/vmm.c:242-274 | is a step of such a run |
| Isolation.SharedMemory.TakePage | source/kernel/src/mm/pmm.c:38-53 | is a step of such a run |
| ElfLoader.FindRegions | source/kernel/src/elf.c:57-84 | the first pass finds the text and data regions, or panics exactly when the scan fails |
| ElfLoader.ScanMeaning | source/kernel/src/elf.c:57-84 | it succeeds exactly when each section of a region ends above all before it and begins above the first one; then the region goes from the begin of its first section to the end of its last |
| ElfLoader.RegionsReady | source/kernel/src/elf.c:88-100 | no frame serves both regions |
| ElfLoader.SectionsBacked | source/kernel/src/elf.c:57-100 | the two regions hold every section that takes memory |
| ElfLoader.AllocRegion | source/kernel/src/elf.c:38-46 | the rounded region is mapped to fresh frames; why it fails |
| ElfLoader.AccessKept | source/kernel/src/elf.c:88-100 | allocating the second region leaves the access of the first as it is |
| ElfLoader.SectionsAccess | source/kernel/src/elf.c:38-100 | behind every address of a section is a present number open to user code, writable exactly for a writable section |
| ElfLoader.FillSucceeds | source/kernel/src/elf.c:105-131 | with both regions allocated no copy or clear fails |
| ElfLoader.FillBuilds | source/kernel/src/elf.c:105-131 | every byte of a PROGBITS section reads back as the file has it and every byte of a NOBITS section as zero, and no section spoils another |
| ElfLoader.FillSections | source/kernel/src/elf.c:105-131 | the second pass is the fill function and succeeds |
| ElfLoader.Load | source/kernel/src/elf.c:49-134 | panics exactly when the sections of a region are not ascending; success builds the image, with every section that takes memory present, open to user code and writable exactly when it says so; why it fails |
| HashTables.NewestIsTop | source/kernel/src/lib/hashtable.c:90-107 | a lookup answers the top of the key's stack |
| HashTables.RemoveUncovers | source/kernel/src/lib/hashtable.c:110-136 | a removal uncovers the item below and leaves every other key alone |
| HashTables.NewestInBucket | source/kernel/src/lib/hashtable.c:90-107 | a lookup may confine itself to one bucket, for any hash that respects equality |
| HashTables.DroppedInBucket | source/kernel/src/lib/hashtable.c:110-136 | a removal changes one bucket only |
| HashTables.HashTable.Add | source/kernel/src/lib/hashtable.c:78-87 | the item is in front of all others |
| HashTables.HashTable.Get | source/kernel/src/lib/hashtable.c:90-107 | the newest item with the key, or null |
| HashTables.HashTable.Remove | source/kernel/src/lib/hashtable.c:110-136 | unlinks exactly that item, chains stay acyclic, the count stays |
| HashTables.HashTable.Size | source/kernel/src/lib/hashtable.c:154-157 | the count is of the items ever added |
| HashTables.HashTable.constructor | source/kernel/src/lib/hashtable.c:160-173 | a zeroed page is an empty table |
| Machine.NextKeeps | source/kernel/src/proc/sched.c:40-73 | the scheduler never sees an invalid state, so its panic is unreachable |
| Machine.LockKeeps | source/kernel/src/sync/mutex.c:23-41 | a pass of the lock loop keeps the invariant |
| Machine.UnlockKeeps | source/kernel/src/sync/mutex.c:44-56 | a release keeps it, the popped waiter being held by the unlocker |
| Machine.WakeKeeps | source/kernel/src/sync/mutex.c:57-58 | the late wake-up keeps it |
| Machine.SendKeeps | source/kernel/src/ipc/port.c:81-133 | a send, from a thread or an interrupt, keeps it |
| Machine.ReceiveKeeps | source/kernel/src/ipc/port.c:190-210 | a pass of the receive loop keeps it |
| Machine.RegisterKeeps | source/kernel/src/ipc/server.c:34-88 | a registration and all its wake-ups keep it |
| Machine.LookupKeeps | source/kernel/src/ipc/server.c:91-131 | a pass of the lookup loop keeps it |
| Machine.KeptOrMatching | source/kernel/src/ipc/server.c:52-78 | the list walk splits the waiters into those kept and those woken |
| Machine.StepKeeps | source/kernel/src/proc/thread.c:185-206 | every step, at any moment, keeps the invariant |
| Machine.EveryRun | source/kernel/src/proc/sched.c:29-73 | the invariant holds after every run from boot |
| Guarantees.EveryThreadHasOnePlace | source/kernel/src/proc/threadqueue.c:23-48 | after any run no thread is lost or in two places, so one link field serves all queues |
| Guarantees.QueuesMatchPhases | source/kernel/src/proc/sched.c:29-73 | after any run the ready queue holds exactly the READY threads, only the current one is RUNNING, the panic flag is down |
| Guarantees.WokenIsOnItsWay | source/kernel/src/sync/mutex.c:52-58 | after any run a woken thread runs or is ready, or its unlocker is |
| Guarantees.NoLockWaiterStranded | source/kernel/src/sync/mutex.c:23-59 | after any run, stray unlocks included: while threads wait, the mutex is held or a woken thread is on its way |
| Guarantees.NoReceiverStranded | source/kernel/src/ipc/port.c:81-221 | after any run: while threads wait, each queued message has a woken receiver of its own on the way |
| Guarantees.MutualExclusion | source/kernel/src/sync/mutex.c:23-59 | over any run in which no thread releases what another holds, at most one is between lock and unlock, and it is the owner |
| Guarantees.UnlockExclusive | source/kernel/src/sync/mutex.c:44-59 | an unlock keeps only the owner inside exactly when no other thread held the mutex |
| Guarantees.StrayUnlockBreaks | source/kernel/src/sync/mutex.c:44-59 | a run after which two threads are inside |
| Guarantees.WaitersAreFifo | source/kernel/src/proc/threadqueue.c:23-48 | waiters join at the end and leave from the front |
| Guarantees.FifoExactlyOnce | source/kernel/src/ipc/port.c:81-221 | after any run, received is a prefix of sent and the rest is queued; in any further run history only grows |
| Guarantees.ReadyMoves | source/kernel/src/proc/sched.c:40-73 | entering the scheduler runs the first of the ready threads and, behind them, the one that is preempted; the idle thread runs exactly when there is none; other steps only append to the ready queue |
| Guarantees.NeverIdleWhileReady | source/kernel/src/proc/sched.c:40-73 | after any run, entering the scheduler leaves the idle thread running only with an empty ready queue; with an empty queue a preempted thread runs on, and one that falls asleep leaves the processor idle |
| Guarantees.BoundedWaiting | source/kernel/src/proc/sched.c:29-73 | after any run, the thread at position k runs after exactly k+1 further entries of the scheduler |
| Guarantees.RegisterServes | source/kernel/src/ipc/server.c:34-88 | exactly when a registration leaves nobody waiting under a registered name |
| Guarantees.LookupServes | source/kernel/src/ipc/server.c:91-131 | exactly when a sleeping lookup waits for an unregistered name |
| Guarantees.NoLookupStranded | source/kernel/src/ipc/server.c:34-131 | after any run with fitting names nobody waits under a registered name |
| Guarantees.LongNamesStrand | source/kernel/src/ipc/server.c:45-57 | a run in which a client sleeps though its server is registered |
| Steps.SwitchedThreads | source/kernel/src/proc/sched.c:40-73 | entering the scheduler makes one thread RUNNING and the one before READY or SLEEPING in its wait loop; no other thread changes |
| Steps.LockMeaning | source/kernel/src/sync/mutex.c:23-41 | a free mutex gets the thread as owner and the thread goes on; for a held one it joins the waiters at the end |
| Steps.UnlockMeaning | source/kernel/src/sync/mutex.c:44-56 | the mutex is free and its first waiter off the list, held by the unlocker; nothing else changes |
| Steps.WakeUpMeaning | source/kernel/src/sync/mutex.c:57-58 | that waiter goes to the end of the ready queue |
| Steps.SendMeaning | source/kernel/src/ipc/port.c:81-133 | the message is queued at the end and the first waiter goes to the end of the ready queue; without memory nothing changes |
| Steps.ReceiveMeaning | source/kernel/src/ipc/port.c:190-210 | the oldest message is taken and the thread goes on; without one it joins the waiters at the end |
| Steps.LookupMeaning | source/kernel/src/ipc/server.c:91-131 | exactly when a lookup falls asleep, and that it is then listed first, under at most 31 characters of the name |
| Steps.RegisterMeaning | source/kernel/src/ipc/server.c:34-88 | the port is entered under at most 31 characters of the name, and how many waiters leave the list |
| Steps.RegisterWaiter | source/kernel/src/ipc/server.c:52-78 | each waiter under the name as given goes to the end of the ready queue in the order of the list, each other one stays at its place among the rest |
| Steps.RegisterThreads | source/kernel/src/ipc/server.c:52-78 | exactly those threads become READY |
| Steps.CreateMeaning | source/kernel/src/proc/thread.c:48-90 | what creating and starting a thread and creating a mutex or port add |
| Steps.ImpossibleIsNothing | source/kernel/src/ipc/port.c:81-133 | a call on no such object, or without memory, changes nothing |
| Scheduling.ThreadQueue.Add | source/kernel/src/proc/threadqueue.c:23-34 | appends to the linked queue |
| Scheduling.ThreadQueue.Pop | source/kernel/src/proc/threadqueue.c:37-48 | removes the first thread |
| Scheduling.ThreadQueue.IsEmpty | source/kernel/src/proc/threadqueue.c:51-54 | tells whether the queue is empty |
| Scheduling.Kernel.AddReady | source/kernel/src/proc/sched.c:29-37 | is the machine's step on threads and links in place, no other queue being disturbed |
| Scheduling.Kernel.Next | source/kernel/src/proc/sched.c:40-73 | is the machine's scheduler entry |
| Scheduling.Kernel.Block | source/kernel/src/proc/thread.c:185-199 | is the machine's falling asleep on an object |
| Scheduling.Kernel.LockPass | source/kernel/src/sync/mutex.c:23-41 | is the machine's lock step |
| Scheduling.Kernel.UnlockPop | source/kernel/src/sync/mutex.c:44-56 | is the machine's unlock step, by whatever thread, and returns the first waiter, null exactly when there is none |
| Scheduling.Kernel.WakeUp | source/kernel/src/sync/mutex.c:57-58 | is the machine's late wake-up |
| Scheduling.Kernel.Send | source/kernel/src/ipc/port.c:81-133 | is the machine's send step; when it fails |
| Scheduling.Kernel.ReceivePass | source/kernel/src/ipc/port.c:176-210 | is the machine's receive step: no such port, asleep, or the oldest message |
| Scheduling.Kernel.Preempt | source/kernel/src/proc/sched.c:40-73 | is the machine's preemption: the first ready thread runs, with none the current one runs on |
| Scheduling.Kernel.Start | source/kernel/src/proc/thread.c:202-206 | a created thread is made ready |
| Scheduling.Kernel.CreateThread | source/kernel/src/proc/thread.c:48-90 | a fresh thread is in no queue; null and nothing changed exactly without memory |
| Scheduling.Kernel.NewMutex | source/kernel/src/sync/mutex.c:62-67 | a fresh mutex is unlocked |
| Scheduling.Kernel.NewPort | source/kernel/src/ipc/port.c:36-78 | a fresh port gets the next object number; nothing changes exactly without memory |
| Scheduling.Kernel.Register | source/kernel/src/ipc/server.c:34-88 | the walk over the waiters is the machine's registration |
| Scheduling.Kernel.LookupPass | source/kernel/src/ipc/server.c:91-131 | is the machine's lookup step; what it answers |
| RequestQueues.RequestQueue.Enqueue | source/lib/devman/src/server/device.c:113-124 | appends to the linked request queue |
| RequestQueues.RequestQueue.Dequeue | source/lib/devman/src/client/async.c:94-101 | removes the first request |
| DeviceServer.Device.Perform | source/lib/devman/src/server/device.c:127-143 | whatever finishes at once is answered before it returns; terminates by the queue length |
| DeviceServer.Device.Finished | source/lib/devman/src/server/device.c:146-185 | answers the current request first and then goes on in order |
| DeviceServer.Device.Arrive | source/lib/devman/src/server/device.c:206-236 | the request is accepted behind all others, or a misdirected error goes out |
| DeviceServer.Device.Complete | source/lib/devman/src/server/device.c:146-185 | a later completion answers the current request |
| DeviceServer.Device.AnswersInOrder | source/lib/devman/src/server/device.c:146-236 | replies answer a prefix of the accepted requests, each once; an idle device has answered all |
| DeviceClient.Connection.ReadAsync | source/lib/devman/src/client/async.c:111-130 | performs or queues: an idle connection sends its number, the size, its token and its port; behind a request under way nothing is sent; without memory nothing changes |
| DeviceClient.Connection.Complete | source/lib/devman/src/client/async.c:69-108 | runs exactly the callback of the request under way, lets it submit more, and sends the next |
| DeviceSystem.System.Submit | source/lib/devman/src/client/async.c:47-66 | a submission on the linked objects is the submission step of the pipeline, whether or not the kernel accepts the message; the message queued, field by field, exactly when one is sent and accepted |
| DeviceSystem.System.Deliver | source/lib/devman/src/server/device.c:206-236 | the oldest message is taken, and with memory its device accepts a read of its size for its port with its token; a delivery step, followed by one finishing step for each request answered before the server returns, accepted or refused |
| DeviceSystem.System.Finish | source/lib/devman/src/server/device.c:146-185 | a completion by the driver is one or more finishing steps, accepted or refused |
| DeviceSystem.System.Answer | source/lib/devman/src/client/async.c:69-108 | taking the oldest reply is the answer step: the token names a connection with a request under way, so no null pointer is read, and the callback is that of the request which caused the reply; the next message queued, field by field |
| DeviceSystem.System.MessagesOf | source/lib/devman/src/client/async.c:47-108 | on the objects: a connection with a request under way has exactly one message on its way unless one was lost, and a connection that lost one is never idle again |
| DevicePipeline.StepKeeps | source/lib/devman/src/server/device.c:146-236 | every step, also one whose message the kernel refuses, keeps the count and the cause of the messages not yet answered |
| DevicePipeline.StepKeepsOrder | source/lib/devman/src/server/device.c:146-236 | in every step messages, requests and replies stay in their order, and what leaves one queue joins the end of the next or is lost |
| DevicePipeline.FinishMany | source/lib/devman/src/server/device.c:146-185 | finishing steps in a row move packets to the replies, or to the lost ones when refused, in their order |
| DevicePipeline.EveryRun | source/lib/devman/src/client/async.c:33-130 | so does every run of any number of connections |
| DevicePipeline.OneOutstanding | source/lib/devman/src/client/async.c:111-130 | after any run exactly one message is under way per connection while a request is, unless a step of the run lost it, and else none; completion in order of submission |
| DevicePipeline.ReplyCompletesItsCause | source/lib/devman/src/client/async.c:69-108 | after any run a reply completes the request that caused it, though it only carries the connection's token |
| DevicePipeline.NothingForgotten | source/lib/devman/src/server/device.c:188-247 | after any run that lost no message of a connection, its request under way is at the server, at a device or on its way back |
| DevicePipeline.LostMeansFailed | source/lib/devman/src/server/device.c:146-219 | a message is lost exactly when a step of the run was refused or found no memory |
| DevicePipeline.LostStallsConnection | source/lib/devman/src/server/device.c:211-219 | once a message is lost, its connection completes nothing in any further run |
| DevicePipeline.CanComplete | source/lib/devman/src/client/async.c:69-108 | a request whose message is somewhere can be completed by letting the parties work on |
| DevicePipeline.StalledIffFailed | source/lib/devman/src/client/async.c:47-130 | after any run, a request under way is stalled for good exactly when a step of the run lost a message of its connection |
| DevicePipeline.LossesHappen | source/lib/devman/src/client/async.c:65 | on any connection just opened, a run for each kind of loss |

## Left out

- Assembly, descriptor tables, interrupt controllers, serial and port I/O; a context switch is "the next thread is current".
- Several processors: spinlocks are interrupts off, as on the one processor that the kernel runs on. After a sleep the code
  keeps interrupts off longer than the model, which lets any step come in between.
- The mutex around the memory manager's operations: each of its methods runs alone.
- The mapping of physical memory into the kernel: only its first gigabyte is ever mapped (`source/kernel/arch/amd64/src/mm/vmm.c:262-270`;
  the loop for the rest is empty), so a table, slab or table of free pages above it faults. The results take every frame
  below the end of the window as reachable.
- What a table of free pages that is too small overwrites: after an overrun nothing more is said.
- Unmapping, kernel mappings (`vmm_arch_map`, two-megabyte pages) and TLB flushes; user addresses below 2^47 only.
- Faults of user code: what the processor makes of the access bits of the four numbers on the way to a page is not modelled.
- Writing through `vmm_copy_to` to frames that a process mapped as device memory or that hold page tables: `CopyTo` and `Clear`
  ask for plain data frames behind the mapped pages.
- The decoding of ELF headers and of section names: an image is a list of sections and the file's bytes.
- The entry allocator of the memory maps is a count of entries left; where it runs out is a parameter of the operations.
- What callers do with results: `start.c` tests the entry point for zero although `elf_load` answers -1.
- Pages and regions that error exits leak: the invariants hold after them, the resources are not returned.
- `thread_exit` and the cleaner thread: the cleaner is woken unconditionally and can be queued twice.
- Deleting ports; closing and creating shared memory (mapping a given block list is modelled).
- The slab and free lists are sequences, not links stored inside the objects; ready queue, wait queues, hash chains and request
  queues are linked objects.
- Message lists of ports, the registry's waiter list and the entries of a memory map are sequences.
- Mutexes and ports are numbered together as kernel objects; in the code ports have numbers of their own.
- The hash functions themselves: any hash that respects key equality will do. `hashtable_iterate` is not modelled.
- HashTables.HashTable.constructor: its page is there; without one `hashtable_init` returns silently and leaves the table
  uninitialised (`source/kernel/src/lib/hashtable.c:164-165`).
- Several client processes on one device server, and connections to several servers: the pipeline has one server's port and
  one reply port, and in `DeviceSystem` a connection's number is its token.
- Copying the data of a read reply, and the synchronous client calls, which use a reply port of their own.
- A device handler is a function from the number of the request to its immediate result, if any; a callback is the list of
  calls that it makes on its connection.
- User-space copies of the slab allocator and the hash table, `printf`, strings, screens, keyboard, terminal, system call wrappers,
  the device manager and the build scripts.
- FreeMap.MemoryMap.Add: asks for a positive size that does not wrap around; `AllocAt` and `Exclude` do as well, and so does a fixed
  `Process.Alloc`. With size 0 the comparisons of `map.c:42-45` wrap around.
- Slabs.SlabCache.Free: asks for a live object; the check of the cache pointer then always passes, any other address is not modelled.
- VirtualMemory.Process.MapShmem: asks for blocks that hold no more pages than the size says, as the shared memory code sees to.
- Boot.InitPages: asks for regions above address 0; boot has always removed the first megabyte.
- UserMemory.CopyTo: asks for plain data frames behind the mapped pages, as above.
- Records of zero length in the boot memory map, and modules or regions that wrap around: `WellFormed` excludes them.
