# Frosk64 in Dafny

A model of the Frosk64 kernel, its file-system image builder and parts of its user library, with proofs
about it. Each module models one piece of the system in that piece's own form: page tables are bytes in
frames that methods rewrite through the scratch window, the free list and the thread ring are linked
objects, the builder has its counters and its output file, the parser has its stream. Beside each stands
a function or relation on values that the code is proved to implement, and the theorems are about those.

`dafny verify dfyconfig.toml` checks everything.

## The modules

Memory and processes

- `page_manager.dfy`, `frame_supply.dfy`: the free list, and whole free frames on it.
- `page_tables.dfy`: four-level tables in physical memory and the walk over them, as in section 4.5 of
  volume 3A of the Intel SDM; the tables as a tree, and what an edit or a new table does to every walk.
- `paging_unit.dfy`: the TLB (section 4.10) and the code that edits tables through the page at
  KSPACE_LOC. `paging.dfy` maps runs of pages, `workspaces.dfy` is the lists the tables are a cache of,
  `space_switch.dfy` exchanges one list for another.
- `address_spaces.dfy`, `pager.dfy`: who owns which frame, what user space sees, page faults.
  `boot_tables.dfy`: the tables as the boot code leaves them, and the kernel that starts from them.
- `loader.dfy`, `process_images.dfy`, `user_views.dfy`: a program's image and first stack frame, and
  what the program then reads.
- `scheduler.dfy`, `run_queue.dfy`, `spawn_lock.dfy`: the thread ring, its fairness, and the insertion
  under timer interrupts. `machine.dfy` is the whole machine on values, what a step of it may do and what
  every run keeps; `kernel.dfy` is the code of each step.

Files

- `image_format.dfy`: slots, nodes, and what trees they represent. `image_builder.dfy` and
  `image_writer.dfy` are the two halves of the builder, `volume.dfy` and `path_lookup.dfy` the kernel's
  side, `image_roundtrip.dfy` joins them.
- `f3s_parser.dfy`, `f3s_printer.dfy`: the tree description language. `image_program.dfy`: the builder as a
  whole, from the text of a description to what the kernel reads.

User library and devices

- `port_channels.dfy`, `port_traffic.dfy`, `port_codecs.dfy`: ports as channels of messages, runs of any
  interleaving, events and pixel buffers over them. `ports.dfy` is the kernel's code for them on memory.
- `heap.dfy`, `keyboard.dfy`, `numbers.dfy`; `bytes.dfy` holds words, byte strings and byte memory.

## Where the code and its intent part

Each of these is kept as the code has it. A lemma gives an input that shows the difference, or says
exactly when there is none.

- `alloc_pages` takes its product in 32 bits (`PageManager.RequestIsExact`,
  `WrappedRequestTakesNothing`); `free_pages` is handed page counts but counts bytes
  (`FreeingByPageCountLeaks`), and can make freed bytes part of a reserved region
  (`FreedBytesAreUsableIff`).
- With no page left `alloc_pages` answers 0, which `check_table` and `page_fault` use like any other answer.
  One table can be hung in frame 0; the next growth empties it (`PagingUnit.GrowthIff`, `SecondGrowthFails`).
  One page of one program can have frame 0; from the second on two pages share it. This is where isolation
  between programs ends: `Machines.RunKeeps` is about runs whose faults find frames, `FaultStepsIff` and
  `PagerState.FaultServedIff` say exactly which faults those are, and `Machines.SharedFrame` is a store of one
  program that another reads.
- `page_in` does not flush. A switch leaves no stale translation exactly when no page of the new list
  that is outside the old one was cached (`SpaceSwitch.SwapLeavesNothingStaleIff`); from the boot code's
  tables on this always holds (`PagerState.Pager.SwapWs`).
- `spawn_thread` never writes the state byte. Exactly the running thread is not ready as long as every
  recycled object's byte said ready (`Scheduler.RunOrderlyIff`); a thread with another byte is on the
  ring but never runs (`StuckForever`), and such bytes occur (`Kernels.RecycledRegionSticks`). Memory,
  isolation and the other threads' turns do not depend on it. The switch stores 1 for the thread it
  starts.
- A `spawn_process` that finds memory for its program but not for a stack gives back a number of bytes
  where pages are meant: memory stays in whole pages exactly if that number is one of whole pages, or
  goes to a region that is never handed out (`Kernels.Kernel.Abandon`).
- The boot code maps low pages of user space one to one. The first switch takes them over, which leaves
  nothing stale as none of them was used (`AddressSpaces.LowAfterSwap`, `BootTables.CachedLowPageGoesStale`
  for the opposite). It relies on memory being zero in three frames that it does not clear
  (`BootTables.SetUpTables`).
- Without the lock test in `context_switch`, an interrupt between the two link writes loses a thread
  (`SpawnLock.WithoutTestAThreadIsLost`).
- The builder never sets permissions and writes part of a host address where a name continues. A tree
  reads back if all its names have at most 18 characters, and only then when no host address happens to
  be a node number (`ImageRoundTrip.BuildImage`, `LongNameExample`).
- `fs_release` flips the lock: a directory reached by a path that ends in a slash is handed out unlocked
  and is locked by its release. Acquiring and releasing restores the table exactly for the other paths
  (`PathLookup.Volume.AquireAndRelease`, `SlashThenName`). Two slashes in a row restart at the root, and at the
  start of a path they denote nothing (`DoubleSlashIs`, `LeadingSlashesFail`). `fs_read` at an offset can
  read past its extent (`ReadsOwnBlocksIff`).
- The parser reads the permission `none` as `all`, so a text can never take a permission away
  (`F3sPrinter.WordsMean`, `NoneOnlyInherited`). At the end of the input inside a node it never returns.
- A table has room for 169 nodes, and the builder begins the next one after 255 (`ImageWriter.RoomForSlotIff`).
- `send` takes a remainder the wrong way round and so lets messages run over the end of a chunk
  (`Ports.RoomTestIs`, `RoomTestOverruns`, `OverrunExample`; `JoinIsRightIff` says when that is harmless), divides by
  zero for a chunk that ends at zero (`PageBoundaryFaults`), and `receive` re-reads a page's start once it
  has passed the page (`RestIsRightIff`) and puts bytes on the free list that the chunk still points at
  (`ReceiveLaidIff`). With no memory left it starts chunks at address 0 (`StartIsRightIff`, `NoMemoryMixes`).
  The theorems about channels, framing and codecs are about the intent, a message that joins the last chunk or
  starts a new one; `TableIsChannels` and `TableIsFifo` carry them over to every run of the code whose calls stay
  in bounds.
- `malloc` never returns when the free block is too small, as its scan compares with its own start
  (`Heap.RequestIsMet`); the largest sizes round to nothing (`WrappedRequestGetsNothing`).
- `itoa` gives a negative number in a radix other than 10 as the unsigned long it converts to
  (`Numbers.NegativeInOtherRadix`).

## Model

| member | source | states |
|---|---|---|
| PageManager.FreeList.AllocPages | kernel/src/pagemgr.c:67-93 | the linked list after a call, and the address returned, are those of first fit on the sequence of regions, with the byte count taken in 32 bits |
| PageManager.FreeList.Unlink | kernel/src/pagemgr.c:77-80 | taking a node off leaves the other regions in order and the list acyclic |
| PageManager.FreeList.FreePages | kernel/src/pagemgr.c:95-121 | the range is merged into the first region it touches on either side, or becomes a new usable region at the front |
| PageManager.FreeList.Extend | kernel/src/pagemgr.c:99-109 | the touching region takes the range in and keeps its kind |
| PageManager.FreeList.Prepend | kernel/src/pagemgr.c:114-120 | a new node goes in front and nothing else changes |
| PageManager.AnswersFirstFit | kernel/src/pagemgr.c:67-93 | the answer is the start of the first region of type 1 with so many bytes, counted in 32 bits, and 0 only if there is none |
| PageManager.AllocTakesItsBytes | kernel/src/pagemgr.c:67-93 | an allocation takes exactly its own bytes off the list, all of them usable before |
| PageManager.AllocKeepsDisjoint | kernel/src/pagemgr.c:67-93 | regions stay pairwise disjoint |
| PageManager.AllocConserves | kernel/src/pagemgr.c:67-93 | the bytes listed shrink by exactly the bytes requested, or not at all |
| PageManager.RequestIsExact | kernel/src/pagemgr.c:72 | the 32-bit product is the page count in bytes if and only if there are fewer than 2^20 pages |
| PageManager.WrappedRequestTakesNothing | kernel/src/pagemgr.c:72 | at 2^20 pages an address comes back although no byte was taken |
| PageManager.FreeAddsItsBytes | kernel/src/pagemgr.c:95-121 | a free lists exactly its own bytes in addition, and the total grows by them |
| PageManager.FreeKeepsDisjoint | kernel/src/pagemgr.c:95-121 | freeing bytes that were not listed keeps regions disjoint |
| PageManager.FreedBytesAreUsableIff | kernel/src/pagemgr.c:99-109 | freed bytes can be allocated again if and only if the first region they touch, if any, is usable |
| PageManager.FreeingByPageCountLeaks | kernel/src/process.c:66 | freeing n pages by their count gives back n bytes and loses 0xfff for each page |
| PageManager.RunConserves | kernel/src/pagemgr.c:67-121 | over every run of allocations and of frees of any range that is off the list, regions stay pairwise disjoint and the bytes listed change by exactly those handed out and given back |
| PageManager.UnlistedStays | kernel/src/pagemgr.c:67-121 | a byte off the list stays off it, and is not handed out, until a free covers it |
| PageManager.NoByteTwice | kernel/src/pagemgr.c:67-121 | no byte is handed out twice without being given back in between |
| FrameSupply.AllocHandsOutFrames | kernel/src/pagemgr.c:67-93 | with whole pages on the list, n pages are n consecutive frames that were free, are not free afterwards, and no other frame changes |
| FrameSupply.OnePageIsAvailable | kernel/src/pagemgr.c:74-92 | one page can be had if and only if one free frame is counted |
| FrameSupply.FreedStaysPagedIff | kernel/src/pagemgr.c:95-121 | after a free of bytes that begin a page, memory still comes in whole pages if and only if the byte count does, or the bytes go to a region that is never handed out |
| PageTables.PokeEntryEffect | kernel/src/paging.c:77 | writing one 8-byte slot of a frame changes that slot and no other slot or frame |
| PageTables.WalkFollowsTree | kernel/src/paging.c:63-78 | in tables that form a tree of distinct frames, the walk at each level stands at the table the tree has for the page's prefix |
| PageTables.WalkIsLookup | kernel/src/paging.c:63-78 | the four-level walk is a lookup in a plain page map |
| PageTables.LeafEdit | kernel/src/paging.c:77 | writing a leaf retranslates exactly its own page |
| PageTables.GrowTree | kernel/src/paging.c:46-53 | hanging a zeroed frame below an absent entry gives a tree again |
| PageTables.GrowKeepsWalks | kernel/src/paging.c:46-53 | a new table changes no page's translation but the scratch page's |
| PageTables.AbsentEntryOnNoPath | kernel/src/paging.c:46 | no translation passes an absent entry |
| PageTables.TaggedFrame | kernel/src/paging.c:47 | a frame address with flags in its low bits is an entry for that frame |
| PagingUnit.EntryAddrIsSlot | kernel/src/paging.c:29-32 | shift and mask pick the slot of the walk at each of the four levels |
| PagingUnit.Mmu.PageToKpt0 | kernel/src/paging.c:34-38 | the scratch page's entry is written and its translation flushed |
| PagingUnit.Mmu.ZeroScratch | kernel/src/paging.c:52 | the frame behind the scratch page becomes zero, byte by byte, and no other frame changes |
| PagingUnit.Mmu.HangFrame | kernel/src/paging.c:47-50 | the frame that alloc_pages answers, a free one or frame 0, is hung: its address with the flags is written into the entry and the window is moved to it |
| PagingUnit.Mmu.AddTable | kernel/src/paging.c:46-54 | a missing table is added in that frame, zeroed through the window, and hung from an entry with the flags given; there is a tree with the new table in it afterwards if and only if a frame was free or frame 0 held no table, and then no translation changed but the scratch page's and no other frame was touched |
| PagingUnit.Mmu.CheckTable | kernel/src/paging.c:40-61 | afterwards the tables are a tree with the next table in it if and only if that one was there or a frame was left for it, and then the scratch page shows it; an entry that was there stays, a new one has the flags given |
| PagingUnit.Mmu.MakeTables | kernel/src/paging.c:71-73 | the three tables below the root exist afterwards and the last one is in the window, whenever each of the three growths works out; new ones hang from entries with the flags given |
| PagingUnit.Mmu.SetPtEntry | kernel/src/paging.c:63-78 | the addressed page is retranslated, no other page but the scratch page is, missing tables come from the free list and after it from frame 0 and hang from entries with the flags given, entries that tables hung from before are the same, frames that hold no table keep their bytes, and the page is noted as stale if it was cached |
| PagingUnit.PathFlags | kernel/src/paging.c:46-73 | after set_pt_entry each of the three upper entries on the page's path is the one that was there, or if it was absent is present with exactly the flags given |
| PagingUnit.OpenStays | kernel/src/paging.c:40-78 | edits that grow tables with such flags keep all tables of the low half open to programs |
| PagingUnit.OpenMeansMay | kernel/src/paging.c:63-78 | where all tables of the low half hang from entries with bits 0, 1 and 2 set and so does the page's leaf, the walk finds the bits in all four entries: a program may read and write the page (Intel SDM volume 3A, section 4.6) |
| PagingUnit.GrowthIff | kernel/src/paging.c:46-54 | a growth leaves a tree with the new table in it if and only if a frame was free or frame 0 held no table; otherwise it empties the table in frame 0 and no tree at all has the new one |
| PagingUnit.SecondGrowthFails | kernel/src/paging.c:46-54 | an input: with no frame free the first growth puts its table into frame 0, and the second one leaves no tree with its own |
| PagingUnit.AffordsStepwise | kernel/src/paging.c:63-92 | a sequence of growths finds its frames if and only if each one does |
| PagingUnit.Mmu.Invlpg | kernel/src/paging.c:37 | the page leaves the TLB and coherence is kept |
| PagingUnit.ExtendsTransitive | kernel/src/paging.c:63-78 | what a sequence of table edits may touch, over any number of edits |
| PagingUnit.DataStore | kernel/src/paging.c:63-78 | a store to a frame that holds no table changes no translation and keeps the tables a tree |
| PagingUnit.PointAnywhere | kernel/src/paging.c:34-38 | repointing the scratch page retranslates that page only |
| Paging.PageIn | kernel/src/paging.c:80-92 | size is rounded up to pages and exactly these pages are mapped to consecutive frames; missing tables come from the free list and after it from frame 0 |
| Paging.MapPages | kernel/src/paging.c:86-91 | the loop: k pages mapped after k rounds, all others as before |
| Paging.EditsCompose | kernel/src/paging.c:63-92 | over every run of page_in, set_pt_entry with any entry and INVLPG each page translates, or does not, as the last edit of it says, or as before, whatever tables were grown in between; a TLB entry is stale if and only if it was there from the start, its page was edited, and it was never flushed |
| Workspaces.Workspace.AddPgs | kernel/src/paging.c:111-124 | an empty last node is filled, otherwise a node is added at the end |
| Workspaces.AddedMaps | kernel/src/paging.c:111-124 | an added extent maps its own pages and leaves the others |
| Workspaces.MappedIffCovered | kernel/src/paging.c:126-146 | a list gives a page an entry if and only if some extent covers it |
| SpaceSwitch.UnmapExtent | kernel/src/paging.c:134-139 | the loop over an extent unmaps and flushes exactly the pages that page_in rounds the same size to |
| SpaceSwitch.UnmapAll | kernel/src/paging.c:134-140 | every page of the old list is unmapped and flushed and no other user page is touched |
| SpaceSwitch.MapAll | kernel/src/paging.c:142-145 | the new list's pages are mapped, later extents over earlier ones |
| SpaceSwitch.ClearedThenMapped | kernel/src/paging.c:126-146 | the two loops together: new list mapped, rest of the old one gone, everything else as before |
| SpaceSwitch.SwapLeavesNothingStaleIff | kernel/src/paging.c:126-146 | after an exchange from a state with nothing stale, nothing is stale if and only if no page of the new list outside the old one was cached |
| AddressSpaces.OwnedExtends | kernel/src/paging.c:40-92 | growing tables takes no owned frame and changes no byte of one, if and only if free frames, and frame 0 if nobody has it, were enough for them |
| AddressSpaces.SwapConsistent | kernel/src/paging.c:126-146 | exchanging one of the two workspaces leaves nothing stale and keeps: user space is exactly the two lists, with access for programs on all four levels, and every frame has one owner; this if and only if the missing tables took no owned frame |
| AddressSpaces.LowAfterSwap | kernel/src/paging.c:126-146 | the first code workspace put in place takes over the low pages that the boot code mapped; taking one out unmaps and flushes them |
| AddressSpaces.FaultConsistent | kernel/src/paging.asm:37-78 | backing absent pages of a seen workspace with frames that nobody else has keeps the same invariant, again if and only if the missing tables took no owned frame |
| AddressSpaces.ServesMeans | kernel/src/paging.asm:45-48 | when a fault finds frames: for a page that lacks no table, if one is free or frame 0 is no table and nobody else's; with a table missing too and none free it does not |
| AddressSpaces.NewSpaceConsistent | kernel/src/process.c:44-53 | a new workspace over frames just handed out keeps the invariant and every owner |
| AddressSpaces.StoresKeepConsistent | kernel/src/process.c:55-62 | stores that retranslate at most the scratch page keep the invariant |
| AddressSpaces.SeenHaveTables | kernel/src/paging.c:134-140 | unmapping pages that are mapped needs no new table |
| AddressSpaces.HandedOutSound | kernel/src/pagemgr.c:67-93 | frames just handed out have no owner and are no page tables |
| PagerState.Pager.SwapWs | kernel/src/paging.c:126-146 | from the boot code's mappings on, after every exchange user space is exactly the two workspaces in place (the boot code's low pages aside until a code workspace is) and no TLB entry is stale, if and only if the missing tables took no frame that somebody owns |
| PagerState.Pager.PageFault | kernel/src/paging.asm:37-78 | what alloc_pages answers, a free frame or with none left frame 0, is mapped at the faulting page and, below KSPACE_LOC, appended to the workspace of its side of USPACE_TOP / 2; no other page is retranslated; the invariant holds and the frame is the page's own afterwards if and only if the fault found frames for the page and its tables, and then no owner changed |
| PagerState.Pager.UserFault | kernel/src/paging.asm:48-78 | the user half: page address up to USPACE_TOP / 2 to the code workspace, above it to the stack workspace |
| PagerState.Pager.BackPage | kernel/src/paging.asm:55-78 | the page is appended to the list of its side and mapped; views, owners and freshness stay if and only if the fault found frames |
| PagerState.Pager.KernelFault | kernel/src/paging.asm:50-53 | above KSPACE_LOC the lists are left alone |
| PagerState.FaultServedIff | kernel/src/paging.asm:45-76 | after a fault in user space owners can be found for all frames, those of before keeping theirs, if and only if the fault found frames: free ones, or one too few with frame 0 no table and nobody else's |
| PagerState.Pager.NewSpace | kernel/src/process.c:44-53 | a workspace whose one extent is exactly the range alloc_pages returned, all its frames newly owned by it; nothing changes if there is no region |
| BootTables.SetUpTables | boot/boot2.asm:300-330 | every entry of the seven tables, with no other frame touched; they are as described if and only if memory was zero where the code does not clear it |
| BootTables.BootIsSound | boot/boot2.asm:300-330 | these tables are a sound starting state for every edit above, whatever memory is free above the first 256 frames |
| BootTables.BootLookup | boot/boot2.asm:318-330 | below the kernel's half exactly the first 0x1ff pages are mapped, one to one |
| BootTables.StartKernel | boot/boot2.asm:300-346 | from the boot code to a kernel without threads in which the whole invariant holds, the low half's tables open to programs included |
| BootTables.CachedLowPageGoesStale | kernel/src/paging.c:80-92 | an input on which an exchange leaves a stale entry: a cached low page would go on reaching the frame that the boot code mapped there |
| Loader.CopyImage | kernel/src/process.c:55-62 | the windowed copy puts the image's bytes and then zeros into its frames and changes no other frame but the scratch page's table |
| Loader.PointScratch | kernel/src/process.c:57-58 | the window is moved to a frame and nothing else is retranslated |
| Loader.StoreScratchWord | kernel/src/process.c:107-113 | a word stored through the window lands in the frame behind it |
| ProcessImages.BuildFrame | kernel/src/process.c:104-113 | the five words that a thread's first iretq pops, selectors 0x1B and 0x23 among them, are at 0xFB0 of the top frame of its stack and no other frame changed |
| ProcessImages.NewStack | kernel/src/process.c:95-113 | a stack workspace of exactly the two frames allocated, below USPACE_TOP, with that frame laid down; no owned frame changes |
| ProcessImages.ImageExtent | kernel/src/process.c:35-53 | each section is rounded up to the next whole page, and the extent recorded is exactly the pages allocated: (pgs + 0x200) * 0x1000 = csz + dsz + bsz + 0x200000 after rounding |
| ProcessImages.LoadProgram | kernel/src/process.c:35-62 | a code workspace of exactly the allocated range holding the image; no frame that had an owner changes |
| ProcessImages.GiveBack | kernel/src/process.c:64-68 | giving back as many bytes as the image has pages leaves the machine sound if and only if memory still comes in whole pages; nobody else's frames or lists change |
| ProcessImages.FreshRunNotOwned | kernel/src/process.c:46-62 | writing into frames that were free a moment ago changes no owned frame |
| UserViews.LoadedIsReady | kernel/src/process.c:53-62 | once loaded, byte i of the image is at user address USPACE_BOT + i |
| UserViews.ImageStays | kernel/src/process.c:53-62 | it stays there while the frames its workspace owns keep their bytes |
| UserViews.FirstFrameSeen | kernel/src/process.c:102-113 | the first return frame is where the thread's saved stack pointer points in its own address space |
| UserViews.MappedIsOwned | kernel/src/paging.c:126-146 | a mapped user page is backed by a frame owned by that workspace at that page |
| UserViews.ProgramMayIff | kernel/src/paging.c:40-146 | in every state with the invariant a program may read and write a page of user space, by bits 0, 1 and 2 of all four entries on its path, if and only if one of its two workspaces maps it |
| UserViews.ProgramReads | kernel/src/paging.c:126-146 | a program's access through the TLB reads what its two workspaces in place hold, and is denied or faults everywhere else |
| UserViews.ProgramSeesImage | kernel/src/process.c:53-62 | a running program reads cd[i] at USPACE_BOT + i for i < csz + dsz and 0 for the following bsz bytes |
| UserViews.UserStore | kernel/src/paging.c:126-146 | a store by the running program to a page of its own is permitted, and changes that byte and no frame of another owner |
| Scheduler.TickWhole | kernel/src/scheduler.asm:45-97 | a switch keeps the ring one cycle of the same threads, and no other thread becomes or stops being stuck (neither ready nor running) |
| Scheduler.TickOrderly | kernel/src/scheduler.asm:45-97 | a switch neither makes nor breaks the order in which exactly the running thread is not ready |
| Scheduler.SpawnWhole | kernel/src/process.c:83-126 | a spawn keeps the ring one cycle, with the new thread on it; it is stuck if and only if its recycled state byte does not say ready |
| Scheduler.SpawnOrderlyIff | kernel/src/process.c:83-126 | after a spawn exactly the running thread is not ready if and only if that was so before and the recycled byte says ready |
| Scheduler.RunWhole | kernel/src/scheduler.asm:45-97 | over every run of switches and spawns, whatever the recycled bytes, the ring is one cycle of exactly the threads ever spawned, and exactly those spawned with another byte than ready are stuck |
| Scheduler.RunOrderlyIff | kernel/src/scheduler.asm:45-97 | exactly the running thread is not ready at the end of a run if and only if that was so at its start and every recycled byte said ready |
| Scheduler.Fair | kernel/src/scheduler.asm:45-97 | a ready thread at ring distance d runs within d + 1 switches plus one for each thread spawned meanwhile, in every run, whoever else is stuck |
| Scheduler.NewcomerRuns | kernel/src/process.c:115-123 | a thread spawned ready comes in behind the head and runs at the second switch at the latest |
| Scheduler.RunnerIsLast | kernel/src/scheduler.asm:63-65 | after a switch the running thread is the last on the ring |
| Scheduler.TakingTurns | kernel/src/scheduler.asm:45-97 | while nothing is spawned the n-th switch runs the n-th thread of the ring |
| Scheduler.FullRound | kernel/src/scheduler.asm:45-97 | after as many switches as there are threads, each has run exactly once and the scheduler is in the state it was in |
| Scheduler.NeverReadyNeverRuns | kernel/src/process.c:86-93 | a thread whose recycled byte did not say ready never runs |
| Scheduler.StuckForever | kernel/src/process.c:86-93 | a stuck thread is stuck at the end of every run and never ran |
| RunQueues.RunQueue.Search | kernel/src/scheduler.asm:45-58 | the loop finds the first ready thread from the head, or none after one lap |
| RunQueues.RunQueue.Start | kernel/src/scheduler.asm:60-65 | the thread is marked and the head moves past it; the ring stays linked |
| RunQueues.RunQueue.Depart | kernel/src/scheduler.asm:89-97 | the old thread is ready again with its stack pointer saved, the new one is current |
| RunQueues.RunQueue.Insert | kernel/src/process.c:115-123 | the new thread goes in behind the head |
| Kernels.Kernel.ContextSwitch | kernel/src/scheduler.asm:42-108 | one step of the machine: with the ring unlocked and a thread ready, one step of the scheduler, the saved stack pointers updated, both workspaces exchanged, no owned frame changed; otherwise nothing; frames are needed only for the tables that the thread switched to lacks |
| Kernels.Kernel.EnterCode | kernel/src/scheduler.asm:60-71 | first half of the switch |
| Kernels.Kernel.EnterStack | kernel/src/scheduler.asm:89-104 | second half of the switch |
| Kernels.Kernel.SpawnThread | kernel/src/process.c:83-126 | a thread with its stack and first frame is on the ring, as one step of the machine, or nothing happened |
| Kernels.Kernel.LayStack | kernel/src/process.c:95-113 | a stack workspace with the first return frame where the saved stack pointer points joins the machine, and nothing else happens |
| Kernels.Kernel.Enlist | kernel/src/process.c:115-123 | the insertion under lock bit 1 puts the thread behind the head and changes nothing else of the machine |
| RunQueues.ProcessRing.Insert | kernel/src/process.c:70-78 | the new process goes in behind the head of the process ring |
| Kernels.Kernel.StartProgram | kernel/src/process.c:27-68 | with memory for both, image at its user addresses, first frame entering at USPACE_BOT and thread on the ring, as one step of the machine; without, nothing; with memory for the image only, part of it is given back |
| Kernels.Kernel.Load | kernel/src/process.c:35-62 | a code workspace with the image at its user addresses joins the machine, and nothing else happens |
| Kernels.Kernel.Abandon | kernel/src/process.c:64-68 | after a spawn that failed for want of a stack all workspaces, owners and threads are those of before; the machine is sound if and only if memory still comes in whole pages, and then this was a step of it |
| Kernels.Kernel.SpawnProcess | kernel/src/process.c:27-81 | the same, and the process is on the process ring if and only if it was spawned |
| Kernels.Kernel.PageFault | kernel/src/paging.asm:37-78 | the page, with the frame that alloc_pages answered, joins the list of its side and nothing else of the threads and lists changes; this is a step of the machine that keeps every owned frame if the fault found frames, and if it did not the invariant is lost or the frame is not the page's own |
| Kernels.Kernel.Store | kernel/src/paging.c:126-146 | one step of the machine: the store is permitted, the byte is read back, and no frame of another owner changes |
| Kernels.Kernel.SwitchShowsImage | kernel/src/scheduler.asm:67-108 | a switch loses no program's image, and a program that comes to run reads its own |
| Kernels.RecycledRegionSticks | kernel/src/process.c:86-93 | an allocation that fits a region exactly gives back an object whose byte says usable; a thread made of it is stuck over every run |
| Machines.InPlaceIsSeen | kernel/src/paging.c:126-146 | what a workspace in place holds is what a program's accesses get, whatever the TLB holds: none of them is denied by an entry on the path |
| Machines.StepKeeps | kernel/src/paging.c:111-146 | no switch, fault or spawn, and no store by a thread without workspace w in place, changes any page that w holds |
| Machines.RunKeeps | kernel/src/paging.c:111-146 | isolation over every run: a workspace's memory changes only by stores of threads that run with it; in every state of the run free frames, page tables and owned frames are apart |
| Machines.FaultStepsIff | kernel/src/paging.asm:37-76 | where isolation ends: what the page-fault handler does to memory is a step of such a run if and only if the fault found frames |
| Machines.SharedFrame | kernel/src/paging.asm:45-76 | an input: once two pages, of one program or of two, have been answered with frame 0, no owners can be found and what is stored through one page is what the other reads |
| Machines.RunIsSchedule | kernel/src/scheduler.asm:42-108 | over every run of the machine its threads are scheduled as the scheduler's own run says |
| Machines.EnterOrderlyIff | kernel/src/process.c:83-126 | a spawn on the whole machine keeps exactly the running thread not ready if and only if the recycled byte says ready |
| Machines.FirstRunShows | kernel/src/scheduler.asm:67-108 | when a thread alone in its process first runs, it resumes at its saved stack pointer and reads all that its two workspaces held at the start of the run |
| Machines.ProgramStarts | kernel/src/process.c:27-81 | a program spawned ready comes to run within its distance of switches, is entered through its first return frame, and then reads its own image, over every run of interrupts, faults, spawns and stores of other programs |
| SpawnLock.RunKeepsGood | kernel/src/process.c:115-123 | with interrupts between any two memory accesses of any number of insertions, the ring is one cycle of exactly the inserted threads and the lock is held by exactly the one spawner inside |
| SpawnLock.InterruptsSeeWholeRing | kernel/src/scheduler.asm:42-65 | an interrupt that goes past the lock test sees a whole ring |
| SpawnLock.WithoutTestAThreadIsLost | kernel/src/scheduler.asm:42-43 | without the lock test there is a run that loses a thread |
| ImageFormat.SlotRoundTrip | util/f301_builder/src/fs.c:325-437 | the kernel's reading of a 24-byte slot is what the builder wrote, for all three layouts |
| ImageFormat.SlotLayout | util/f301_builder/src/fs.c:335-425 | the 24 bytes of each kind of slot: type, permission, name length and characters, and every number at its offset, lowest byte first |
| ImageFormat.LockBitIsNotDecoded | kernel/src/fs.c:20 | the lock bit changes nothing that is decoded |
| ImageFormat.RepDependsOn | kernel/src/fs.c:58-75 | what an image represents depends on the tree's own nodes only |
| ImageFormat.ImageDeterminesTree | kernel/src/fs.c:58-75 | two trees that one image represents from one root are equal: types, names, owners, contents, order, places, parents |
| ImageBuilder.PlaceKeepsTree | util/f301_builder/src/fs.c:201-255 | numbering changes nothing but the numbers |
| ImageBuilder.PlaceCounts | util/f301_builder/src/fs.c:148-255 | numbering uses up exactly the nodes a tree needs: one for an entry, one for every 18 characters begun of its name or destination, one for a file's data |
| ImageBuilder.ChainsEnd | util/f301_builder/src/fs.c:201-255 | as all pointers but the parent's (name, first, next, data and continuation pointers) go to larger numbers, no chain of them is longer than the numbers left |
| ImageBuilder.Builder.NewNode | util/f301_builder/src/fs.c:123-146 | the first call makes the table in blocks 1 and 2, and numbers count up from 1 |
| ImageBuilder.Builder.AllocBlocks | util/f301_builder/src/fs.c:105-111 | the block cursor moves on by the count |
| ImageBuilder.Builder.MakeString | util/f301_builder/src/fs.c:181-199 | the name is spread over consecutive nodes of 18 characters |
| ImageBuilder.Builder.AllocBlocksForFile | util/f301_builder/src/fs.c:148-179 | block count, last block's bytes and a new extent for the file; a number is used up even without a file |
| ImageBuilder.Builder.AddEntries | util/f301_builder/src/fs.c:201-255 | the node graph represents the parsed entries, numbered in the order of the recursion, every pointer but the parent's goes to a larger number, and all extents stay pairwise disjoint and clear of the table |
| ImageBuilder.Builder.AddTop | util/f301_builder/src/fs.c:257-280 | only directories named / and @ are taken; the node for unused space comes first |
| ImageWriter.SlotWritten | util/f301_builder/src/fs.c:325-437 | a slot of the table or the mirror overlaps no other slot, no header and no file while entries are at most 169, so writing it again changes nothing |
| ImageWriter.RoomForSlotIff | util/f301_builder/src/fs.c:127-143 | a slot and its mirror lie before the first file block if and only if the node is one of the first 169; from node 171 on the table runs into its own mirror, and the builder goes on to 255 |
| ImageWriter.FileWritten | util/f301_builder/src/fs.c:299-323 | a file's blocks overlap no slot and no other file |
| ImageWriter.ImageFile.WriteName | util/f301_builder/src/fs.c:419-427 | all string nodes of a name are written, into both copies |
| ImageWriter.ImageFile.WriteData | util/f301_builder/src/fs.c:405-417 | the data node is written, into both copies |
| ImageWriter.ImageFile.WriteFileData | util/f301_builder/src/fs.c:299-323 | the extent holds the file and then zeros |
| ImageWriter.ImageFile.WriteTree | util/f301_builder/src/fs.c:325-437 | after the recursion, with all its repeated writes, every node of the tree is final in both copies and every file is in place |
| ImageWriter.ImageFile.WriteFs | util/f301_builder/src/fs.c:439-470 | header, both trees and the unused node are final in the file; the header's bytes spell, lowest first, the mark 0xF301, the root, what the boot loader needs, the unused node, and 2 for the mirror's block |
| Volumes.SizeExact | kernel/src/fs.c:180-196 | fs_get_size on the builder's data node is the file's length, for 0 to INT_MAX under 32-bit wrap-around, and gives back the block count |
| Volumes.WrittenIsRead | kernel/src/fs.c:58-75 | the kernel's view of the written image represents the tree, its files are filled up with zeros, no node is locked and pointers go up |
| Volumes.ShortIsFaithful | util/f301_builder/src/fs.c:419-424 | names of at most 18 characters are written as they are meant, wherever the host's nodes lie |
| Volumes.NumbersAreFaithful | util/f301_builder/src/fs.c:423 | were node numbers written there, names of any length would be |
| Volumes.LongNameIsLost | util/f301_builder/src/fs.c:423 | a longer name whose continuation's address is no entry reads back as no name |
| Volumes.ReadBackIsShort | util/f301_builder/src/fs.c:411-423 | if the kernel finds the tree in the image, wherever, every name fits one string node, given that no host address is a node number |
| Volumes.HeaderReadsBack | util/f301_builder/src/fs.c:446-455 | the kernel finds both roots in the header |
| ImageRoundTrip.BuildImage | util/f301_builder/src/main.c:11-48 | for every pair of top-level trees needing, with the unused node, at most 169 nodes, in either order, the image read by the kernel is exactly these trees if their names are of at most 18 characters, and only then when no host address is a node number; it begins with the mark and the pointers that the boot loader wants |
| ImageRoundTrip.TreeHeld | util/f301_builder/src/fs.c:325-437 | the same for one written tree: it is held if and only if its names are short |
| ImageRoundTrip.LongNameExample | util/f301_builder/src/fs.c:423 | an input on which the image does not hold the tree: one file with a 19-character name |
| ImageProgram.SaidIsParsed | util/f301_builder/src/main.c:28-33 | a text of two nodes in any layout is parsed as these two and then the end |
| ImageProgram.SaidIffParsed | util/f301_builder/src/main.c:28-33 | the texts meant below are exactly those that the parser reads as two nodes and then the end |
| ImageProgram.TreeMatches | util/f301_builder/src/fs.c:201-255 | a node's entry has the bytes of its name, its owner modulo 2^32, and the file that the host has at its path or none, its destination, or its entries |
| ImageProgram.ListMatches | util/f301_builder/src/fs.c:211-247 | as many entries as nodes in a list, in the same order, each what its node says, and so on down |
| ImageProgram.PathMatches | util/f301_builder/src/fs.c:201-255 | following a path of names in the built tree reaches the entry of the node that the same path reaches in what was parsed, or nothing if there is none |
| ImageProgram.BuildFromText | util/f301_builder/src/main.c:11-48 | for every such text needing at most 169 nodes, the image that the whole program builds is, as the kernel reads it, two trees that match what was parsed, if and only if their names are short; it begins as the boot loader wants |
| ImageProgram.BuildAndRead | prgm/start/src/start.c:52-70 | builder and kernel together: reading the file at a path of a built image gives the host's bytes, in whole blocks filled up with zeros |
| ImageProgram.BuildTextAndRead | prgm/start/src/start.c:52-70 | from the text to a program's buffer: reading a path of an image built from a text gives the bytes that the host has for the file that the path reaches in the text, and nothing where it reaches none |
| PathLookup.Strncmp | kernel/src/kstrlib.c:25-32 | zero if and only if the path has the chunk at that position |
| PathLookup.Volume.Resolve | kernel/src/fs.c:58-75 | the node at a pointer |
| PathLookup.Volume.MatchName | kernel/src/fs.c:98-115 | a name spread over any number of string nodes matches if and only if it is a prefix of the path |
| PathLookup.Volume.Aquire | kernel/src/fs.c:77-134 | on every well-formed image and every path the result is the node the lookup on the tree gives, locked, or null if there is none or it is locked; nothing but that lock bit changes |
| PathLookup.Volume.TryLock | kernel/src/lock.asm:20-27 | a free lock bit is set, a taken one makes the result null |
| PathLookup.Volume.Release | kernel/src/fs.c:136-140 | the lock bit is flipped whatever it was |
| PathLookup.FrontIsComponent | kernel/src/fs.c:117-126 | a name at the front followed by a slash or the end is the path's first component |
| PathLookup.FollowsNames | kernel/src/fs.c:77-134 | below any directory, a path of proper names is followed name by name |
| PathLookup.NormalPath | kernel/src/fs.c:77-134 | on a normalised path other than the root's the lookup is plain lookup by names |
| PathLookup.DoubleSlashIs | kernel/src/fs.c:83-85 | what two slashes in a row mean, for every path: if what is before them leads to a directory the lookup restarts at the root, and else there is nothing |
| PathLookup.LeadingSlashesFail | kernel/src/fs.c:83-94 | a path that begins with two slashes denotes nothing |
| PathLookup.ChildIsTheOne | kernel/src/fs.c:94-130 | with distinct sibling names an entry's name finds that entry |
| PathLookup.Volume.AquireAndRelease | kernel/src/fs.c:77-140 | for every path, after acquiring and releasing the table is the old one, byte for byte, if and only if nothing was handed out or the path is not empty and does not end in a slash |
| PathLookup.LastCharDecides | kernel/src/fs.c:92 | only a path that is empty or ends in a slash ends at a directory itself, and every other one at a named entry |
| PathLookup.ReleaseRestoresIff | kernel/src/fs.c:92-140 | the condition on tables: releasing what a path gave restores the table if and only if the path does not end open |
| PathLookup.OpenPathOf | kernel/src/fs.c:92-126 | a name with a slash behind it leads to the directory itself, without it to the same directory as an entry |
| PathLookup.Volume.SlashThenName | kernel/src/fs.c:92-140 | an input: a directory acquired with a slash behind its name and released cannot be acquired by its name any more |
| PathLookup.LockKeepsGraph | kernel/src/lock.asm:20-37 | locking changes nothing that the image says |
| PathLookup.Volume.GetSize | kernel/src/fs.c:180-196 | the length of the file's contents, 0 for anything else |
| PathLookup.Volume.ReadBlocks | kernel/src/fs.c:142-176 | how many blocks are read and from where |
| PathLookup.ReadsOwnBlocksIff | kernel/src/fs.c:152-161 | a read stays inside the file's extent if and only if the offset leaves room for what is read |
| PathLookup.Volume.ReadFile | prgm/start/src/start.c:52-70 | finding, sizing, reading and releasing a file gives exactly its bytes, at the front of all blocks of its extent, and leaves the table as it was |
| F3sParser.Parser.IgnoreWhitespace | util/f301_builder/src/parse.c:18-25 | the stream stands at the first character that is no space |
| F3sParser.Parser.Expect | util/f301_builder/src/parse.c:27-37 | the wanted character after space, or the error exit |
| F3sParser.Parser.ReadToken | util/f301_builder/src/parse.c:39-63 | the trimmed text of at most 1023 characters before the next delimiter; without one the call never returns |
| F3sParser.Parser.ParseNode | util/f301_builder/src/parse.c:65-108 | the stream parser is the recursive grammar on what is ahead, and what it consumes bounds it |
| F3sParser.Parser.ParseLoop | util/f301_builder/src/parse.c:99-188 | the field loop, field by field, with its errors and the passes it lets through after a brace |
| F3sParser.Parser.ParseList | util/f301_builder/src/parse.c:158-180 | the list in braces, entry by entry |
| F3sPrinter.ReadsToken | util/f301_builder/src/parse.c:39-63 | a clean text of at most 1023 characters with any space around it is read as that text |
| F3sPrinter.LongTokenIsCut | util/f301_builder/src/parse.c:39-63 | of a longer one the first 1023 characters are read |
| F3sPrinter.NodeReads | util/f301_builder/src/parse.c:65-191 | every well-written node, whatever space and delimiters surround its tokens and in whatever order its fields come, is parsed as what it means, and nothing behind it is touched |
| F3sPrinter.ParsedIffWritten | util/f301_builder/src/parse.c:65-191 | the language, both ways: a text is parsed as a node with a rest left over if and only if it begins with a well-written node that means this one, in front of that rest |
| F3sPrinter.AtEndIffSpace | util/f301_builder/src/parse.c:74-76 | there is no further node if and only if there is only space left |
| F3sPrinter.TreeRoundTrip | util/f301_builder/src/parse.c:65-191 | printing a tree and parsing the text gives the tree back, for every tree that a text can mean |
| F3sPrinter.SaidIffPrintable | util/f301_builder/src/parse.c:65-191 | a tree with all its names, loads and 32-bit owners is what some text means if and only if its permissions are none only where the defaults have none |
| F3sPrinter.NearestIsInherited | util/f301_builder/src/parse.c:82-84 | in every well-written text a node at any depth has the permission stated nearest to it: by itself, or by the nearest directory around that stated one before its list, and else the default |
| F3sPrinter.WordsMean | util/f301_builder/src/parse.c:111-131 | in a text that is parsed the last word given for a permission counts: owner is the owner, and all and none are both all |
| F3sPrinter.NoneOnlyInherited | util/f301_builder/src/parse.c:111-131 | no text makes a permission none; it is none only by inheritance |
| PortChannels.SendAppends | kernel/src/ports.c:17-80 | a send appends its message to its channel's pending bytes and to no other channel's |
| PortChannels.ReceiveSparesOthers | kernel/src/ports.c:108-144 | a receive takes bytes of its own channel only |
| PortChannels.PollFindsIff | kernel/src/ports.c:82-106 | poll finds a sender if and only if bytes are pending, and then the sender of the first chunk that has some for this receiver and port |
| PortChannels.SendAddsMessage | kernel/src/ports.c:17-80 | a message joins or starts a chunk without being cut across chunks |
| PortChannels.ReceiveGetsMessage | kernel/src/ports.c:117-138 | a receiver that asks for the first pending message's size gets that message |
| PortChannels.ReceiveFailsWhenEmpty | kernel/src/ports.c:117-144 | with nothing pending a receive fails and changes nothing |
| PortTraffic.ChannelIsQueue | kernel/src/ports.c:17-144 | in every interleaving, whatever the other channels do, a channel whose receivers replay its senders' sizes is a queue of messages |
| PortTraffic.NothingLostOrReordered | kernel/src/ports.c:17-144 | what arrived and what is pending is what was sent, in order |
| PortTraffic.FromEmpty | kernel/src/ports.c:17-144 | from a kernel without chunks on, receives on such a channel answer as a queue does, and what arrived is what was sent, but for what is pending |
| PortTraffic.World.Await | lib/events/src/events.c:28-30 | a waiting receiver gets the next message of its channel, among any other traffic, if the rest of the run sends it |
| PortCodecs.SendEvents | lib/events/src/events.c:46-56 | the channel gets the length and then the events |
| PortCodecs.GetEvents | lib/events/src/events.c:23-44 | get_events after send_events is the list, among any other traffic and with earlier messages consumed |
| PortCodecs.CreateBuffer | lib/ykw/src/bufferutils.c:11-28 | a buffer of that size, every pixel the fill |
| PortCodecs.SendBuffer | lib/ykw/src/bufferutils.c:106-115 | the channel gets width, height and the columns |
| PortCodecs.ReceiveBuffer | lib/ykw/src/bufferutils.c:117-130 | receive_buffer after send_buffer is the buffer, for every size of positive height |
| PortCodecs.ColumnRoundTrip | lib/ykw/src/bufferutils.c:112-114 | a column is packed red, green, blue, and unpacks to its pixels |
| Ports.PortTable.Send | kernel/src/ports.c:17-80 | the chunk list, memory and free list after a send, and when it divides by zero |
| Ports.PortTable.Poll | kernel/src/ports.c:82-106 | the sender of the first chunk with bytes |
| Ports.PortTable.Receive | kernel/src/ports.c:108-144 | the bytes returned, and the chunk and free list afterwards |
| Ports.PortTable.Drain | kernel/src/ports.c:126-132 | offset and size after a receive, with what is passed to free_pages |
| Ports.SendRefines | kernel/src/ports.c:42-80 | a send whose message fits is a channel's send, and every chunk stays in its own bytes; the bytes reserved are the result |
| Ports.ReceiveRefines | kernel/src/ports.c:117-138 | a receive that stays below its chunk's first page is a channel's receive |
| Ports.ReceiveLaidIff | kernel/src/ports.c:126-132 | a receive leaves every chunk in bytes of its own if and only if it stays below its chunk's first page; otherwise the list has bytes that the chunk still points at, unless the chunk is left with no extent at all |
| Ports.TableIsChannels | kernel/src/ports.c:17-144 | over every run of calls that stay in bounds, memory holds what the channels hold and receives answer as channels do |
| Ports.TableIsFifo | kernel/src/ports.c:17-144 | so from the empty table on, on a channel whose receivers replay the sizes sent, the code's receives answer as a queue does: each gets the next message intact and none fails while one is pending; every message comes out in order and once |
| Ports.JoinIsRightIff | kernel/src/ports.c:45-50 | a joining message disturbs no other channel, for all memory and messages, if and only if it is written clear of what the other chunks hold |
| Ports.StartIsRightIff | kernel/src/ports.c:71-80 | a message that starts a chunk becomes that chunk and disturbs no other, for all memory and messages, if and only if the address from alloc_pages is clear of what the chunks hold |
| Ports.RoomTestIs | kernel/src/ports.c:45 | the room test passes if and only if the message and the remainder of 0x1000 by the chunk's end fit a page |
| Ports.FittingJoins | kernel/src/ports.c:45-50 | a message that ends inside the page of its channel's last chunk joins it: no chunk and no page more |
| Ports.EventsTakeOnePage | lib/events/src/events.c:46-56 | the messages of a list of events that fit a page take one chunk and one page in all |
| Ports.NoMemoryMixes | kernel/src/ports.c:71-80 | an input: with nothing on the free list the first messages of any two channels both start at address 0, and the first channel gets the second one's bytes |
| Ports.RoomTestOverruns | kernel/src/ports.c:45 | the room test lets one byte too many in whatever the chunk, and past half a page as many bytes again as there are |
| Ports.OverrunExample | kernel/src/ports.c:45-50 | two channels with a page each where 200 bytes overwrite the other's message |
| Ports.RestIsRightIff | kernel/src/ports.c:129-132 | after a receive that passes the page the rest is right, for all memory, if and only if nothing is left |
| Ports.PageBoundaryFaults | kernel/src/ports.c:43-45 | a last chunk drained exactly at a page boundary makes the next send divide by zero |
| Heap.Allocator.Malloc | lib/cstd/src/malloc.c:19-79 | headers in memory stay in step with the shape of the heap, the block returned is the next one, and nothing handed out before is touched |
| Heap.RequestIsMet | lib/cstd/src/malloc.c:37-68 | below the sizes that round to nothing malloc answers NULL if and only if no block is left, and otherwise the payload just behind the last block if and only if the rounded size fits the free one; if it does not fit it never returns |
| Heap.AllMetIff | lib/cstd/src/malloc.c:19-79 | from the start, a run of requests is met, each right behind the one before, if and only if what they take up in all fits the heap |
| Heap.Allocator.Calloc | lib/cstd/src/malloc.c:81-91 | the same, with the payload zero |
| Heap.Allocator.Realloc | lib/cstd/src/malloc.c:93-108 | the common prefix is preserved and the rest is zero, or the call never returns |
| Heap.RequestKeepsTiling | lib/cstd/src/malloc.c:37-65 | blocks tile 0x100010 bytes exactly and a split never underflows |
| Heap.RunKeepsTiling | lib/cstd/src/malloc.c:19-79 | over every run |
| Heap.BlocksApart | lib/cstd/src/malloc.c:41-64 | blocks are disjoint |
| Heap.BlocksAligned | lib/cstd/src/malloc.c:37-39 | and 16-byte aligned from the start of the heap |
| Heap.RoundedUp | lib/cstd/src/malloc.c:37-39 | the rounded size is a multiple of 16 and at least what was asked, if and only if that is at most 2^64 - 16 |
| Heap.WrappedRequestGetsNothing | lib/cstd/src/malloc.c:37-39 | above that a block of no bytes is handed out |
| Heap.PayloadWritten | lib/cstd/src/malloc.c:81-108 | writing inside a payload leaves every header |
| Keyboard.KeyBuffer.Read | kernel/src/keyboard.c:33-48 | the longest available prefix, in order |
| Keyboard.KeyBuffer.Write | kernel/src/keyboard.c:50-64 | the longest prefix that fits goes in, the rest is dropped |
| Keyboard.KeyBuffer.KeyInterrupt | kernel/src/keyboard.asm:25-49 | the byte always goes in, as the last one; of a full queue of 511 the oldest is dropped |
| Keyboard.StoredAtTop | kernel/src/keyboard.asm:28-49 | a store at the top of the ring, and the bottom moved on when they meet |
| Keyboard.NothingReordered | kernel/src/keyboard.c:33-64 | over every mix of operations what was read and is queued is what went in, in order, but for bytes that keys pushed out of a full queue |
| Numbers.WriteDigits | lib/debug/src/debug.c:25-28 | the division loop writes the digits backwards |
| Numbers.ReverseBetween | lib/debug/src/debug.c:30-34 | the reversal loop turns that stretch round and touches nothing else |
| Numbers.Itoa | lib/debug/src/debug.c:14-36 | sign, digits and terminator in place, for every radix 2 to 36 |
| Numbers.DigitsDenote | lib/debug/src/debug.c:25-28 | the digits are a numeral for the value without a leading zero |
| Numbers.TextDenotes | lib/debug/src/debug.c:14-36 | what itoa writes is a numeral without a leading zero for the value, behind a minus sign in radix 10 if that is negative, and in another radix for 2^64 more |
| Numbers.OnlyOneNumeral | lib/debug/src/debug.c:14-36 | and the only one |
| Numbers.NegativeInOtherRadix | lib/debug/src/debug.c:17 | a negative value in another radix is written as an unsigned long |
| Numbers.Atol | lib/cstd/src/stdlib.c:11-30 | space, sign and digits, for numbers that fit a long |
| Numbers.NumberReads | lib/cstd/src/stdlib.c:11-30 | what any text is read as: spaces skipped, one minus sign, the digits' value, and nothing of what follows |
| Numbers.AtolOfItoa | lib/cstd/src/stdlib.c:11-30 | atol undoes itoa in radix 10 for every int above INT_MIN |

## Left out

- PagingUnit.Mmu.MakeTables: asks that each of its growths works out, and so does everything above it; what the code goes on to write once a growth has left no tree of tables (`PagingUnit.GrowthIff`) is not modelled.
- PagerState.Pager.PageFault: as for MakeTables, asks that after the page has its frame the tables that it lacks can be hung in a tree.
- Kernels.Kernel.ContextSwitch: asks for frames, free or an unowned frame 0, for the page tables that the next thread's workspaces still lack; `PagerState.Pager.SwapWs` says what is lost otherwise.
- Machines.ProgramStarts: about a thread that is alone in its process until it runs; with more threads the others may have changed the image before.
- Workspace extents above 0xFFFFF000 bytes, which the 32-bit counter of swap_ws could not pass.
- TLB entries are filled on access only. Entries filled speculatively while check_table has hung a frame but not cleared it, and paging-structure caches, are not modelled.
- Execute-disable, accessed and dirty bits, and faults on present pages, on which the handler stops. The bits for presence, writing and programs are modelled; of the kernel's half nothing is said about them.
- The kernel's own mappings: kernel pages above KSPACE_LOC are left as faults make them.
- alloc_kobj and free_kobj: objects are new objects; only the stale state byte of a recycled thread object is kept.
- Interrupts between the steps of the page-fault handler or of swap_ws, and stack contents other than a thread's first frame.
- Scheduler.Fair: counts completed switches; time between timer interrupts and the early return's shorter period are not modelled.
- Images with more than one node table; the builder's list of tables is taken to end after the first, although its last next field is never written.
- ImageWriter.ImageFile.WriteFs: needs at most 169 nodes; with 170 to 255 slots, mirror and files overlap (`ImageWriter.RoomForSlotIff`) and what is final depends on the order of writing.
- ImageRoundTrip.BuildImage: the same.
- ImageProgram.BuildFromText: the same, and about texts of exactly two top-level nodes, / and @ in either order; a further one would replace one of them.
- ImageProgram.BuildAndRead: about trees whose names have at most 18 characters; longer ones are not read back.
- Host files are taken not to change between the builder's two passes; a file that cannot be opened is one without contents.
- Permissions in an image: the builder never stores those it parsed, so an image's are arbitrary.
- Parsed nodes without a name or a load, whose fields the builder would read uninitialised.
- File lists of more than one extent, fs_write and the other file-system calls without a body, loading the node table from disk, and sector input and output.
- Line numbers in the parser's messages; NUL and non-character bytes in its input.
- PortCodecs.GetEvents: returns the events as a sequence; the code never sets the next field of the last list node.
- Ports.SendRefines: needs the message to fit where it is put; `JoinIsRightIff` and `StartIsRightIff` say exactly when one does no harm.
- Ports.TableIsChannels: about runs whose calls stay in bounds, as SendRefines and ReceiveRefines need them.
- Ports.ReceiveRefines: needs the receive to stay below its chunk's first page; `ReceiveLaidIff` and `RestIsRightIff` say what happens otherwise.
- Heap.Allocator.Calloc: products above 2^64 - 16, for which malloc hands out a block of no bytes and the clearing loop runs over the whole address space.
- Heap.Allocator.Realloc: sizes above 2^64 - 16, for the same reason, and calls when the heap is used up, which write to address 0.
- Buffers of no height or negative size; resizing, copying and linearising buffers.
- free: its body is disabled, so blocks are never given back, and Heap.Allocator.Realloc leaves the old block allocated.
- A call of malloc that never returns is an outcome of its own; realloc of a null pointer is not modelled.
- Numbers.Itoa: for INT_MIN in radix 10 the negation overflows, which C leaves undefined.
- Numbers.Atol: numbers that do not fit a long overflow, which C leaves undefined.
- Drivers, port input and output, system-call dispatch, interrupt descriptors, and the window-system programs.
