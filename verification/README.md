# liumOS in Dafny

liumOS is a small x86-64 kernel. This project models the parts of it whose logic does not hang on a
device, and proves what they promise: address spaces, persistent memory, the window compositor, the
scheduler, the rings shared with hardware and interrupt handlers, the MIDI player, the Internet
checksum and the browser's HTML tokenizer. `dafny verify dfyconfig.toml` checks all of it.

How the modules fit together:

- `Basics` is shared. `PhysicalMemory`, `PageTable`, `PageAllocator`, `Mapping`, `KernelHalf`, `DirtyPages`, `Segments`,
  `ElfLoader`: one map of page frames holds page tables, program bytes and the headers of free chunks. The free
  list is threaded through it, the four-level page table lives in it, and the loops of
  `CreatePageMapping` take tables from the list while they build. The end result is
  `ElfLoader.LoadElf`: what a new process reads through its page table is its file, on frames and tables
  of its own, its lower half leads nowhere else, and only pages that were free are written, so the kernel and every process loaded before
  stay as they were.
- `PersistentObjects`, `ManagerInit`: the object list in non-volatile memory behind a write-back cache
  that may write any line back at any time, while programs store into the objects. `Checkpoint`: the two-slot process checkpoint, with stores
  durable in program order.
- `Rects`, `Compositor`: the owner map and the frame buffer of a parent window under moves, insertions,
  alpha changes and paints.
- `SchedulerModel`: the process table as a value with events, and the code that refines it.
- `Trbs`, `TransferRing`, `EventRing`, `RingBufferModel`: producer and consumer as interleaved steps.
- `MidiStream`, `MidiPlayer`, `Voices`: bytes to events, the events of all streams to one global order, notes
  to channels.
- `Checksum`, `Tokenizer`.

State machines are given as values (`Apply`, `Run` and an invariant kept by every event); code that the
kernel writes as in-place updates is a class or a method over arrays, proved against the same functions. What
those functions mean is pinned to addresses, words, bits and code points by laws that do not mention them
(`PageTable.V2pByBits`, `Mapping.CreatePageMapping`, `PageAllocator.FitMeans`, `ElfLoader.AcceptableIff`,
`PersistentObjects.AllocatedWords`, `ManagerInit.InitLeaves`, `Compositor.Parent.PixelShown`,
`MidiStream.ValueDigits`, `MidiStream.StatusGroups`, `Tokenizer.AnyTagReads`).

Some properties turned out to hold only under a condition. The code is modelled as it is, the exact
condition is proved, and a lemma gives an input that does not meet it:

- A crash while `CopyContextFrom` has the other context's page table in the working context loses the
  checkpoint later on; every other crash is survived (`Checkpoint.CrashSurvivable`, `Checkpoint.WindowCrashBreaks`).
- `PersistentMemoryManager::Init` can be interrupted anywhere exactly when the old head word is null or
  leads to a list (`ManagerInit.InitAtomicIff`, `ManagerInit.LineTwoFirst`, `ManagerInit.NoListExample`): the
  signature is on another cache line than the head.
- `FlushDirtyPages` succeeds exactly when the range has page tables and the end address also has a PML4
  entry (`DirtyPages.FlushDirtyPages`, `DirtyPages.EndAddressMatters`).
- A push that rewrites the Link TRB while the controller stands on it stops the controller; with N-1
  other requests outstanding this is the one case to avoid (`TransferRing.LinkMustBePassed`,
  `TransferRing.StuckOnLink`).
- Turning alpha off leaves the owner map as it is, which is right exactly when every transparent pixel
  in view is covered from above (`Compositor.DisablingAlpha`, `Compositor.DisablingAlphaExample`). In the same
  way a paint keeps the map right exactly when it does not change which pixels in view the child covers, or
  only under another child (`Compositor.PaintRight`, `Compositor.PaintExample`).
- A MIDI event's size is kept in one byte, so an event reads back exactly when it has at most 255 bytes
  (`MidiStream.EventRoundTrip`); one of 256 bytes is read for ever (`MidiStream.LongEventStalls`), and
  reading a stream ends exactly when no event on its way has size 0 (`MidiStream.ReadingEndsIff`).
- Nine channels behave like unlimited ones exactly while no more than nine notes are held
  (`Voices.NineSuffice`, `Voices.TenthGivenUp`).
- A checksum over more than 65537 words can overflow its 32-bit sum and is then wrong
  (`Checksum.RightUnlessOverflow`, `Checksum.OverflowExample`).
- A list of tokens survives printing and tokenizing exactly when its tokens are of the kind the tokenizer
  makes, no name has 20 bytes or more and it does not end in the character `<` (`Tokenizer.ReadsBackIff`,
  `Tokenizer.LessIsLost`).

## Model

| member | source | states |
|---|---|---|
| `PageTable.V2pByBits` | src/paging.h:67-111 | `v2p` is the walk by the bits of the address: bits 39-47, 30-38, 21-29 and 12-20 select the entries, and a page found at a level covers 1 GiB, 2 MiB or 4 KiB and gives the low bits |
| `PageTable.WalkReaches` | src/paging.h:104-111 | in a well-formed tree, the walk of `v2p` for an address passes through the table that serves it at every level |
| `PageTable.WalkAvoids` | src/paging.h:104-111 | a change in one entry of one table does not change the walk of any address that does not go through that entry |
| `PageTable.SetKeepsTree` | src/paging.h:151-172 | replacing an entry without changing where it links keeps the tables a tree with nothing shared |
| `PageTable.SetDecides` | src/paging.h:104-172 | the entry replaced decides the translation of exactly the pages below it; all other pages translate as before |
| `PageTable.RefreshEntry` | src/paging.h:169-172 | `SetAttr` on a link entry changes no translation and no leaf attribute |
| `PageTable.GrowKeepsTree` | src/paging.h:297-301 | hanging a cleared table off a non-present entry keeps the tree well formed |
| `PageTable.GrowTable` | src/paging.h:297-301 | hanging a cleared table off a non-present entry changes no translation |
| `PageAllocator.FirstFit` | src/phys_page_allocator.h:24-49 | the chunk the search stops at fits and none before it does |
| `PageAllocator.FitMeans` | src/phys_page_allocator.h:35-49 | what that means: the search finds nothing if and only if every chunk of the wanted domain (any, without one) has at most as many pages as asked for; else the first larger one of that domain |
| `PageAllocator.Dram.FreePages` | src/phys_page_allocator.h:11-21 | the range becomes the first chunk and its first page the header; page 0 empties the list, because 0 is its end |
| `PageAllocator.Dram.AllocPages` | src/phys_page_allocator.h:24-49 | panics if and only if every chunk (of the domain) has at most as many pages; otherwise the last pages of the first larger one (of the domain), and only its header changes |
| `PageAllocator.Dram.ProvidePages` | src/phys_page_allocator.h:65-72 | the first chunk that fits gives up its last pages, its header keeps the rest, and the list stays threaded |
| `PageAllocator.Dram.AllocPagesStraight` | src/phys_page_allocator.h:24-49 | both searches with pointers in the straight mapping, where the end of the list is not null: the same page, of the wanted domain, whenever some chunk (of the domain) is larger |
| `PageAllocator.ShrinkTakes` | src/phys_page_allocator.h:65-79 | exactly the pages provided stop being free, and no chunk header is among them |
| `PageAllocator.StepSafe` | src/phys_page_allocator.h:11-49 | one operation keeps free and held pages apart and loses no page |
| `PageAllocator.RunSafe` | src/phys_page_allocator.h:11-49 | over every run, free chunks and held pages stay pairwise disjoint and are together exactly the pages supplied |
| `PageAllocator.PagesConserved` | src/phys_page_allocator.h:11-49 | page counts of all chunks plus held pages equal the pages supplied, over every run |
| `Mapping.StoreLeaf` | src/paging.h:162-168 | storing a 4 KiB or 2 MiB leaf maps its pages, with the leaf attributes, and no others |
| `Mapping.LinkNewTable` | src/paging.h:309-313 | allocating, clearing and linking a table changes no translation and keeps free list and tree |
| `Mapping.NextTable` | src/paging.h:308-319 | following or creating a link and refreshing its attributes; panics on a large page or without memory |
| `Mapping.FillPageTable` | src/paging.h:346-355 | the innermost loop maps its stretch of pages, or all that is left, one to one |
| `Mapping.OpenedThenAdvanced` | src/paging.h:306-357 | opening a table and then filling below it is one stretch: it maps exactly those pages and writes no table off their path |
| `Mapping.FillLarge` | src/paging.h:323-335 | the 2 MiB case maps its 512 pages, with one large page, and no others |
| `Mapping.FillDirectoryEntry` | src/paging.h:322-345 | one directory entry: its pages are under a 2 MiB page if and only if the entry was empty, both addresses are aligned and 512 pages are left; else under 4 KiB pages |
| `Mapping.FillDirectory` | src/paging.h:320-356 | the directory loop maps exactly its stretch, through both page sizes |
| `Mapping.FillPointers` | src/paging.h:306-357 | the pointer-table loop maps exactly its stretch |
| `Mapping.MapPages` | src/paging.h:294-358 | all four loops: every page of the request, in order, up to the end of the 48-bit space, including the extra table the outer loop may still create |
| `Mapping.CreatePageMapping` | src/paging.h:284-359 | in addresses: `v2p(vaddr+k) == paddr+k` for every `k` below the byte size, with the given leaf attributes, up to the end of the 48-bit space; addresses before the request and in pages that start behind its last byte translate as before; in tables: they stay a tree apart from the free list, and below the root no table that serves no page of the request is written; otherwise a panic with its cause, which is the only alternative |
| `KernelHalf.AllocPageTable` | src/paging.h:267-273 | a fresh root that maps nothing and shares no page with the kernel's tables |
| `KernelHalf.JoinedWellFormed` | src/paging.cc:104-108 | the tables of the process and the kernel's upper half together form one tree |
| `KernelHalf.JoinedTranslate` | src/paging.cc:104-108 | after the copy, lower-half pages translate as in the process table and upper-half pages as in the kernel's |
| `KernelHalf.SetKernelPageEntries` | src/paging.cc:104-108 | the loop leaves entries 0 to 255 and takes 256 to 511; translations accordingly |
| `DirtyPages.FlushPage` | src/immintrin.h:15-21 | flushing a page counts 64 lines |
| `DirtyPages.ClearDirtyBit` | src/paging.h:223-226 | one dirty bit is cleared and the free list stays in place |
| `DirtyPages.SweepPage` | src/paging.cc:235-243 | a dirty page is flushed, counted and made clean; a clean one is left alone |
| `DirtyPages.SweepTable` | src/paging.cc:233-244 | the innermost loop sweeps exactly its stretch |
| `DirtyPages.FlushDirtyPages` | src/paging.cc:201-248 | succeeds if and only if the range has page tables and the end address a PML4 entry; then the frames flushed are exactly the dirty ones in order, their dirty bits and no others are cleared, translations are unchanged, 64 line flushes each; every byte of the range then lies in a clean page |
| `DirtyPages.EndAddressMatters` | src/paging.cc:208-213 | there are well-formed tables that cover a page and on which sweeping just this page panics, because the address behind it has no PML4 entry |
| `Segments.FillSegment` | src/elf.cc:127-130 | file bytes, then zeros, standing in pages of bytes, in exactly the pages of the segment |
| `Segments.MapSegment` | src/execution_context.h:33-43 | the segment's pages are mapped to its physical pages; it never meets a large page; only free pages and tables outside the kernel's upper half are written |
| `Segments.LoadAndMapSegment` | src/elf.cc:117-132 | every byte of the segment is in a page of bytes and reads, through `v2p`, as file or zero, and nothing but its pages, free pages and tables outside the kernel's upper half is written |
| `Segments.StepKeepsLoaded` | src/elf.cc:143-151 | mapping and filling one segment leaves every byte of another one where it was and reading as before |
| `Segments.LoadedSurvives` | src/elf.cc:143-151 | a loaded segment stays loaded while its pages translate as before and its frames are left alone |
| `ElfLoader.ParseProgramHeaders` | src/elf.cc:77-115 | succeeds exactly when every header is acceptable; the slots then hold the last loadable header of each kind |
| `ElfLoader.AcceptableIff` | src/elf.cc:90-103 | all headers are acceptable if and only if every loadable one has an alignment that is a multiple of a page and no two of a kind are loadable unless the earlier asks for no memory and starts a page |
| `ElfLoader.NoSegmentDropped` | src/elf.cc:99-106 | no loadable header that asks for memory is displaced by a later one |
| `ElfLoader.LoadAndMap` | src/elf.cc:134-152 | code, data and stack in place together, with read-only and writable leaf attributes, on frames that are not free, hold no table and are pairwise disjoint; every page outside the three translates as before; nothing but these frames, free pages and tables outside the kernel's upper half is written |
| `ElfLoader.LoadElf` | src/elf.cc:154-204 | end to end: every loadable header is mapped to pages of bytes and reads back as `p_filesz` file bytes and zeros up to `p_memsz` through the process page table, read-only for executable headers and writable for others; stack mapped; lower-half pages outside code, data and stack unmapped; frames reserved and pairwise apart; upper half the kernel's; only pages that were free are written, the kernel's tables stay a tree and translate as before; it fails only for headers the parser refuses or when no chunk serves a requested size |
| `ElfLoader.NewTables` | src/elf.cc:160-161 | a page table with nothing in the lower half and the kernel's upper half, its own tables taken from free pages |
| `ElfLoader.AllImages` | src/elf.cc:77-152 | segments in place are the memory image of every loadable header: each byte mapped, user read-only for executable headers and writable for others, file bytes and then zeros |
| `ElfLoader.OnlyFreeThen` | src/elf.cc:134-204 | filling and mapping on tables and frames that were free before loading writes only pages that were free before loading |
| `ElfLoader.TablesUndisturbed` | src/elf.cc:154-204 | whoever had tables before loading keeps them: a tree, apart from the free list, with the same translations |
| `ElfLoader.ProcessUndisturbed` | src/elf.cc:154-204 | isolation: a process that was in place stays in place, contents, attributes and frames |
| `ElfLoader.LowerHalfIsOwn` | src/elf.cc:154-204 | whatever the lower half of a loaded process translates to is one of its own frames |
| `ElfLoader.LoadTwo` | src/elf.cc:154-204 | two processes loaded one after the other both read as their files and share no frame and no table of the lower half; no lower-half address of one leads to a frame of the other |
| `PersistentObjects.IdsDescend` | src/pmem.h:43 | ids descend by one down to the sentinel's 0 |
| `PersistentObjects.ObjectsApart` | src/pmem.h:36-46 | objects are page-aligned, in bounds, disjoint from each other and from every header |
| `PersistentObjects.BeginOk` | src/pmem.h:36-42 | the new header's place follows from what is read through the cache and extends the chain |
| `PersistentObjects.NextOk` | src/pmem.cc:5-19 | every store and flush of an allocation keeps the invariant between cache and durable memory |
| `PersistentObjects.SpillOk` | src/pmem.cc:5-19 | so does the eviction of any line at any time |
| `PersistentObjects.WriteOk` | src/pmem.h:46 | so does any store of a program into an allocated object, also during an allocation |
| `PersistentObjects.CrashOk` | src/pmem.cc:86-89 | restarting from durable memory gives the list with or without the object in progress |
| `PersistentObjects.RunOk` | src/pmem.h:33-47 | over every run of allocations, stores into allocated objects, evictions and crashes the invariant holds and no completed allocation is lost |
| `PersistentObjects.FailureAtomic` | src/pmem.h:33-47 | at any moment of any run, whatever is stored into the objects, the durable image is exactly the list before or after the allocation in progress |
| `PersistentObjects.RecoveryUnique` | src/pmem.h:33-47 | an image holds at most one list |
| `PersistentObjects.AllocIsRun` | src/pmem.h:34-47 | undisturbed, the program takes the old list to the new one in cache and durable memory |
| `PersistentObjects.PersistentMemoryManager.InitHeader` | src/pmem.cc:5-13 | the stores and flushes of `Init`, in order, and nothing else |
| `PersistentObjects.PersistentMemoryManager.SetNext` | src/pmem.cc:15-19 | the store and flush of `SetNext` |
| `PersistentObjects.PersistentMemoryManager.SetHead` | src/pmem.cc:86-89 | the store and flush of `SetHead` |
| `PersistentObjects.PersistentMemoryManager.AllocPages` | src/pmem.h:34-47 | refuses exactly when the region is too small; otherwise issues exactly the operations of the step machine and leaves the longer list in cache and durable memory |
| `PersistentObjects.AllocatedWords` | src/pmem.h:36-46 | in words: the object starts one page behind the end of the newest one, the four header words stand right in front of it, and the head word leads to them |
| `ManagerInit.StepsInv` | src/pmem.cc:44-58 | every store and flush of the set-up, with any evictions, keeps the durable list words old, null or new |
| `ManagerInit.InitAtomic` | src/pmem.cc:44-58 | at every moment an image that looks valid holds the old list or the empty one, if the old head word is null or leads to a list |
| `ManagerInit.InitAtomicIff` | src/pmem.cc:44-58 | exactly under that condition: otherwise writing back the signature's line first leaves an image that looks valid and holds no list |
| `ManagerInit.LineTwoFirst` | src/pmem.cc:54-55 | six stores and then a write-back of the signature's line: the image looks valid with the old list words |
| `ManagerInit.NoListExample` | src/pmem.cc:44-58 | contents with nothing but a head word that points nowhere: the word is set and leads to no list |
| `ManagerInit.Init` | src/pmem.cc:44-58 | issues exactly those operations and leaves every word of the manager as it should be, the empty list, valid and durable |
| `ManagerInit.StepsFields` | src/pmem.cc:49-55 | with any evictions, from the flush of the first line on page index, size and last process are durable |
| `ManagerInit.InitLeaves` | src/pmem.cc:44-58 | the manager and its sentinel afterwards, word by word |
| `Checkpoint.KernelStepSafe` | src/execution_context.cc:88-93 | every single store of saving, flipping and copying keeps the checkpoint |
| `Checkpoint.StepSafe` | src/kernel.cc:181-184 | so does every instruction of the process and every crash outside the window |
| `Checkpoint.RunSafe` | src/execution_context.h:117-124 | at every point of every such run the context chosen by the valid index is the process (registers, data, stack) as of the latest flip |
| `Checkpoint.SaveRecords` | src/kernel.cc:181-184 | from the interrupt, store by store to the flip: the checkpoint becomes exactly the registers and memory the process had when it was interrupted |
| `Checkpoint.ResumesSaved` | src/process.cc:69-87 | a switch or a restore ends with the process running the saved registers on the saved memory |
| `Checkpoint.CopyResumes` | src/execution_context.h:117-124 | copying, from its first store to its last, ends with the process running the saved registers on the saved memory in the working context |
| `Checkpoint.SwitchResumes` | src/kernel.cc:181-184 | a whole switch: the process goes on with the registers and the memory it was interrupted with, on the frames of the other context |
| `Checkpoint.WindowCrashBreaks` | src/execution_context.h:118-120 | after a crash between the two stores of the page table root, restoring succeeds but the first store of the process destroys the checkpoint |
| `Checkpoint.CrashSurvivable` | src/execution_context.h:117-124 | a crash can be survived if and only if it does not fall between those stores |
| `Checkpoint.SwitchCompletes` | src/execution_context.cc:88-93 | the store-by-store machine ends where the code below ends |
| `Checkpoint.PersistentProcessInfo.CopyContextFrom` | src/execution_context.h:117-124 | registers and bytes copied, page table root kept, the other context untouched, bytes counted |
| `Checkpoint.PersistentProcessInfo.SwitchContext` | src/execution_context.cc:88-93 | the working context becomes the checkpoint and an equal copy of it the working one |
| `Checkpoint.PersistentProcessInfo.Restore` | src/process.cc:74-78 | the checkpoint stays and the working context follows it |
| `Rects.IntersectPoints` | src/rect.h:14-22 | the intersection has exactly the common points, also for negative sizes |
| `Rects.MoveCovers` | src/sheet.h:48-89 | the one to three rectangles recomputed after a move cover the old and the new rectangle, also when they are disjoint without the emptiness test firing |
| `Rects.MoveStaysInside` | src/sheet.h:48-89 | and they stay inside the bounding box of the two |
| `Compositor.PixelWord` | src/sheet.h:146-152 | column `c` of row `r` of a sheet is word `r * pixels_per_scan_line + c` of its buffer, and an alpha sheet covers there if and only if the top byte of that word is not zero |
| `Compositor.MoveRight` | src/sheet.h:59-89 | recomputing those rectangles makes the whole owner map right |
| `Compositor.StaleAfterMove` | src/sheet.h:91-94 | only pixels the child now owns or uncovered in its old place can be stale |
| `Compositor.FlushLower` | src/sheet.h:91-93 | flushing a lower sibling over the old rectangle settles what it owns there |
| `Compositor.FlushSelf` | src/sheet.h:94 | flushing the child over its new rectangle settles the rest |
| `Compositor.InsertRight` | src/sheet.h:33-45 | recomputing the rectangle of an inserted child makes the map right |
| `Compositor.PaintRight` | src/sheet.cc:56-61 | after any paint the untouched map is right if and only if no pixel in view changes cover without another child above it |
| `Compositor.PaintExample` | src/sheet.cc:56-61 | an opaque pixel of an alpha sheet painted transparent: the map was right and is wrong afterwards |
| `Compositor.PaintShown` | src/sheet.cc:56-61 | flushing the painted rectangle is enough for the frame buffer |
| `Compositor.DisablingAlpha` | src/sheet.h:100-106 | turning alpha off keeps the map right if and only if another child covers every transparent pixel in view |
| `Compositor.DisablingAlphaExample` | src/sheet.h:100-106 | one transparent pixel with nothing above it: the map was right and is wrong afterwards |
| `Compositor.Parent.ClearRect` | src/sheet.h:134-139 | clears exactly the rectangle |
| `Compositor.Parent.EnterChild` | src/sheet.h:141-164 | enters the child at its covering pixels in the rectangle, opaque or by alpha, and nowhere else |
| `Compositor.Parent.UpdateMap` | src/sheet.h:130-166 | inside the target every pixel names the last child in z-order that covers it, or nobody; outside nothing changes |
| `Compositor.Parent.PixelShown` | src/sheet.cc:44-53 | over the arrays: a right map names a child at a pixel in view if and only if the child hides what is below it there and no higher child does; then a coherent frame buffer holds the word of that row and column |
| `Compositor.Parent.SetMap` | src/sheet.h:29-32 | a new map is right everywhere |
| `Compositor.Parent.FlushInParent` | src/sheet.cc:29-54 | copies the child's pixels exactly where the map names it, inside the area |
| `Compositor.Parent.SetPosition` | src/sheet.h:48-95 | the map stays right and the frame buffer keeps showing every owner's pixel |
| `Compositor.Parent.SetAlphaEnabled` | src/sheet.h:100-106 | the same for enabling alpha; disabling only records the flag |
| `Compositor.Parent.Flush` | src/sheet.cc:56-61 | the part of the given area that lies in the child and in the parent |
| `Compositor.FlushAreaHas` | src/sheet.cc:56-61 | the area flushed is exactly the given columns and rows of the child that lie in the child and in the parent |
| `Compositor.Parent.FlushPainted` | src/sheet.cc:56-61 | after any paint and a flush of the painted rectangle, the map is right if and only if the paint changed no cover in view, and then the frame buffer follows |
| `Compositor.Parent.Adopt` | src/sheet.h:33-47 | the child goes right below the first topmost one; map and frame buffer stay right |
| `SchedulerModel.StepKeepsInv` | src/scheduler.cc:5-82 | after every operation the current process is the only one running or stopping and all others sleep or have stopped |
| `SchedulerModel.StoppedForGood` | src/scheduler.cc:10-18 | a reused slot belonged to a stopped process; no other process loses its slot |
| `SchedulerModel.RegisterPlaces` | src/scheduler.cc:5-25 | a new process takes the first slot whose process has stopped; the table grows only when there is none, up to 256 |
| `SchedulerModel.RunKeepsInv` | src/scheduler.cc:5-82 | the invariant in every reachable state |
| `SchedulerModel.NeverRunsAgain` | src/scheduler.cc:34-55 | over every run, a process that has stopped is never current again |
| `SchedulerModel.KillStops` | src/process.cc:3-20 | killing by id: a sleeping process has stopped, the current one is stopping |
| `SchedulerModel.LeavingStep` | src/scheduler.cc:41-48 | a stopping process stays as it is until a switch finds a sleeping one, and then has stopped |
| `SchedulerModel.KilledForGood` | src/scheduler.cc:34-82 | over every run, with ids handed out once each, a killed process never runs again: at once, or from the first switch that finds a sleeping process when it was current |
| `SchedulerModel.StaysAlive` | src/scheduler.cc:34-82 | over every run, a process nobody kills keeps its slot and is running or sleeping |
| `SchedulerModel.SwitchProgresses` | src/scheduler.cc:37-52 | a switch makes a sleeping process current or brings the turn closer to it |
| `SchedulerModel.OthersDoNotDelay` | src/scheduler.cc:5-25 | registrations and kills of others never lengthen its wait |
| `SchedulerModel.BecomesCurrent` | src/scheduler.cc:34-55 | it becomes current within its distance plus the free table slots, counted in switches |
| `SchedulerModel.WithinOneRound` | src/scheduler.cc:34-55 | and so within 255 switches, whatever else happens |
| `SchedulerModel.Process.Kill` | src/process.cc:3-20 | sleeping becomes stopped, running becomes stopping, anything else stays; what follows is `KilledForGood` |
| `SchedulerModel.Scheduler.constructor` | src/scheduler.h:7-11 | one running process in slot 0 |
| `SchedulerModel.Scheduler.RegisterProcess` | src/scheduler.cc:5-25 | into the first stopped slot or a new one; every process knows its slot |
| `SchedulerModel.Scheduler.SwitchProcess` | src/scheduler.cc:34-55 | the next sleeping process in the round takes over; null exactly when nobody sleeps |
| `SchedulerModel.Scheduler.Kill` | src/scheduler.cc:71-82 | the first process with the id is killed and nothing else changes |
| `SchedulerModel.Scheduler.KillCurrentProcess` | src/scheduler.cc:57-59 | the current process starts stopping |
| `TransferRing.PushInStep` | src/xhci_trbring.h:33-42 | a push keeps cycle bits and positions in step with the controller |
| `TransferRing.PushAppends` | src/xhci_trbring.h:33-42 | it adds one request at the end of those outstanding |
| `TransferRing.PollTakes` | src/xhci_trbring.h:21-27 | a step of the controller takes the oldest outstanding request, or passes the link |
| `TransferRing.AdvancesWhileOutstanding` | src/xhci_trbring.h:33-42 | the controller is never stuck on requests and stops when there are none |
| `TransferRing.RoomSuffices` | src/xhci_trbring.h:33-42 | with fewer than N requests outstanding after it, a push is safe |
| `TransferRing.LinkMustBePassed` | src/xhci_trbring.h:36-40 | with room for one more, a push is right if and only if it does not rewrite the link under the controller |
| `TransferRing.StuckOnLink` | src/xhci_trbring.h:36-40 | the case is real: in a ring of one entry, push and consume one request, and the next push leaves the controller stuck with nothing outstanding |
| `TransferRing.ConsumesInOrder` | src/xhci_trbring.h:16-42 | for every N and every run, the controller consumes the pushed requests once each and in order |
| `TransferRing.TransferRequestBlockRing.constructor` | src/xhci_trbring.h:16-32 | one round of pushes leaves every cycle bit clear and the cycle state 1 |
| `TransferRing.TransferRequestBlockRing.Advance` | src/xhci_trbring.h:58-62 | one entry gets the cycle bit |
| `TransferRing.TransferRequestBlockRing.PushEntry` | src/xhci_trbring.h:33-42 | the code is the push of the machine |
| `EventRing.PostInStep` | src/xhci.cc:62-66 | although the dequeue pointer lags one event, a controller that stops at it overwrites nothing unread |
| `EventRing.FindsOldest` | src/xhci.cc:48-52 | software finds an event exactly when one is pending, and it is the oldest |
| `EventRing.PopTakes` | src/xhci.cc:53-61 | popping removes exactly that event |
| `EventRing.PopsInOrder` | src/xhci.cc:48-61 | for every ring size and run, events are popped once each and in order |
| `EventRing.SoftwareRing.constructor` | src/xhci.cc:27-45 | a zeroed ring, expecting cycle 1 |
| `EventRing.SoftwareRing.HasNext` | src/xhci.cc:48 | the cycle bit test is the test of the machine |
| `EventRing.SoftwareRing.PopEvent` | src/xhci.cc:49-66 | the code is the pop of the machine |
| `RingBufferModel.ApplyOk` | src/ring_buffer.h:6-20 | every single access of either side keeps the invariant |
| `RingBufferModel.NoSharedSlot` | src/ring_buffer.h:6-20 | no slot is read while it is being written |
| `RingBufferModel.RefusedIffFull` | src/ring_buffer.h:14-16 | a push is dropped if and only if n-1 elements were there when it read the reader's index |
| `RingBufferModel.PopsArePrefix` | src/ring_buffer.h:6-20 | for every capacity and interleaving, the popped values are a prefix of the accepted ones |
| `RingBufferModel.RingBuffer.Pop` | src/ring_buffer.h:6-12 | the oldest element, or zero when empty |
| `RingBufferModel.RingBuffer.Push` | src/ring_buffer.h:13-19 | appended unless n-1 elements are there |
| `MidiStream.ParseValue` | src/adlib.cc:12-26 | the value of at most four bytes of seven bits and where it ends |
| `MidiStream.ValueDigits` | src/adlib.cc:12-26 | seven bits a byte, most significant first, up to the first byte below 128 or the fourth |
| `MidiStream.ValueRoundTrip` | src/adlib.cc:12-26 | values below 2^28 read back as written, at the right end |
| `MidiStream.StatusGroups` | src/adlib.cc:52-65 | 0x80-0xBF and 0xE0-0xEF take two parameters, 0xC0-0xDF one, 0xFF is a meta event, and no other byte is known |
| `MidiStream.EventRoundTrip` | src/adlib.cc:36-66 | for data below 2^28 bytes: an event reads back with its length and size modulo 256, and as written, position and all, if and only if it is at most 255 bytes long |
| `MidiStream.LongEvent` | src/adlib.cc:44-51 | there are events of exactly 256 bytes |
| `MidiStream.LongEventStalls` | src/adlib.cc:121-128 | every event of 256 bytes decodes with size 0, so the next one read is the same again |
| `MidiStream.ReadingEndsIff` | src/adlib.cc:121-128 | calling `GetNextEvent` over and over ends if and only if every event met moves the position on |
| `MidiStream.TrackStream.GetNextEvent` | src/adlib.cc:121-128 | the first of the events still to come, and the position behind it |
| `MidiStream.TrackRoundTrip` | src/adlib.cc:121-128 | a track of events of at most 255 bytes reads back whole, each read moving on |
| `MidiPlayer.HandleDue` | src/adlib.cc:194-227 | handles every event of a track that is due, in order, at its time, fetching the next one from the stream each time |
| `MidiPlayer.Pass` | src/adlib.cc:193-228 | after a pass nothing is due, and due tracks have moved on |
| `MidiPlayer.MinDelta` | src/adlib.cc:229-242 | the smallest wait of any track that has events left |
| `MidiPlayer.WaitKeepsTime` | src/adlib.cc:243-249 | waiting that long keeps every track on time |
| `MidiPlayer.Round` | src/adlib.cc:192-250 | one round keeps every track on time, and with a track due it handles at least one event |
| `MidiPlayer.Play` | src/adlib.cc:183-250 | for all streams whose reading ends: every event a stream gives is handled exactly once, at the sum of the deltas of its track, in order of time and then of track; it terminates |
| `MidiPlayer.OrderDetermined` | src/adlib.cc:191-250 | there is only one such log |
| `Voices.NineSuffice` | src/adlib.h:136-170 | nine channels agree with unlimited ones all along a run if and only if it never holds more than nine different notes |
| `Voices.TenthGivenUp` | src/adlib.h:143-154 | the last of ten notes held together is not played |
| `Voices.AtMostNine` | src/adlib.h:136-154 | no run ever holds more than nine notes |
| `Voices.State.FreeChannel` | src/adlib.h:143-153 | a channel is free exactly when fewer than nine notes are held |
| `Voices.State.PlaysHeld` | src/adlib.h:136-170 | every held note sounds on exactly one channel, and nothing else sounds |
| `Voices.Adlib.TurnOffAllNotes` | src/adlib.h:125-134 | no note held, nothing sounding |
| `Voices.Adlib.NoteOn` | src/adlib.h:136-154 | one more of a held note, or the first free channel for a new one, or given up with nine others held; the tables stay a bijection |
| `Voices.Adlib.NoteOff` | src/adlib.h:156-171 | one less of the note; its channel falls silent and free with the last |
| `Checksum.FoldKeeps` | src/network.h:78-80 | folding shrinks the sum and keeps its one's complement value |
| `Checksum.Calc` | src/network.h:71-84 | the complement of the one's complement sum of the words, for up to 131074 bytes; beyond, of the wrapped sum |
| `Checksum.StoredVerifies` | src/network.h:173-177 | storing the checksum in a zero field makes the checksum of the whole 0 |
| `Checksum.DetectsWord` | src/network.h:71-84 | a receiver who gets 0 would not have got it with any other word in a place, except the other form of zero |
| `Checksum.ChecksumPermuted` | src/network.h:71-84 | the order of the words does not matter |
| `Checksum.NoOverflow` | src/network.h:74-77 | 65537 words do not overflow 32 bits |
| `Checksum.RightUnlessOverflow` | src/network.h:74-77 | with up to 65535 overflows the result is right if and only if there was none |
| `Checksum.OverflowExample` | src/network.h:74-77 | 131076 bytes of ones: the value `Calc` returns is not the checksum of their words |
| `Checksum.CalcUDPChecksum` | src/network.h:318-343 | the checksum of the 12 bytes of the pseudo-header (addresses, zero, 17, length) followed by the datagram |
| `Checksum.CalcAndSetChecksum` | src/network.h:173-177 | the header then has checksum 0 and is otherwise unchanged |
| `Tokenizer.Tokenize` | app/browser/tokenize.c:46-155 | terminates on every input with the tokens of `Tokenized`, rewriting only carriage returns and upper-case letters before the end |
| `Tokenizer.RewrittenMeans` | app/browser/tokenize.c:54-61 | by code points: CR becomes LF, a letter A to Z gets 0x20 added |
| `Tokenizer.PlainText` | app/browser/tokenize.c:62-75 | text without `<` becomes its characters |
| `Tokenizer.TextReads` | app/browser/tokenize.c:54-75 | the same by code points, CR as LF |
| `Tokenizer.AnyTagReads` | app/browser/tokenize.c:77-151 | a tag with letters of either case reads as the tag whose name has 0x20 added to each letter A to Z and LF for CR |
| `Tokenizer.BadEndTag` | app/browser/tokenize.c:100-112 | after `</` everything up to the next letter is skipped |
| `Tokenizer.SkipsToClose` | app/browser/tokenize.c:139-152 | after `/` in a tag everything up to `>` is skipped and the tag closes itself |
| `Tokenizer.OpenTagKept` | app/browser/tokenize.c:113-138 | a tag the input ends in is kept with the name read so far |
| `Tokenizer.RoundTrip` | app/browser/tokenize.c:46-155 | characters (also `<` where it cannot start a tag) and start, end and self-closing tags read back as printed |
| `Tokenizer.Produces` | app/browser/tokenize.c:46-155 | whatever the input, the tokens are printable: lower-case names starting with a letter, no carriage return |
| `Tokenizer.PrintedAgain` | app/browser/tokenize.c:46-155 | printing the tokens of any input and tokenizing again gives the same list if and only if it does not end in `<` |
| `Tokenizer.ReadsBackIff` | app/browser/tokenize.c:11-20 | for any list of tokens: printed into memory it reads back if and only if it is printable, no name has 20 bytes or more and it does not end in `<` |
| `Tokenizer.LessIsLost` | app/browser/tokenize.c:78-98 | a `<` at the end of the input is dropped |

## Left out

- Port I/O, MMIO, MSRs, interrupt controllers, timers, PCI, UEFI, virtio and the rest of the xHCI driver: device plumbing.
- Tree construction in the browser, console, fonts, shell, network applications, ARP table, sockets, heap and string helpers: user interface, clients, or easy members.
- Effective page permissions: `SetAttr` on intermediate entries is last-writer-wins, so only translations and leaf attributes are stated.
- Page-table entries are records of fields (frame, attribute bits 0 to 4, dirty, page-size, the rest) rather than 64-bit words; `CreatePageMapping` is modelled for attributes in those bits and without the cache-line flushes of its `should_clflush` flag.
- Physical memory is a map of typed frames: a page holds a table, bytes or a free-chunk header, and reading one as another is not modelled.
- The persistent loader, which uses the object list as its page allocator, and ELF header decoding before the program headers.
- `PersistentProcessInfo` before its first save, and durability of stack and copied bytes under a volatile cache: stores are durable in program order in `Checkpoint`, so the flushes of `SwitchContext` have no effect there, and data and stack are one area.
- Checkpoint.PersistentProcessInfo.Restore: models the copy only; refreshing the kernel entries of both page tables and mapping fresh kernel stacks, which surround it in the source, are left out, because kernel memory is no part of the checkpoint.
- FPU registers, which the source does not save in a context switch.
- Rectangles use unbounded integers; sheets without a map, and parents whose scan line is longer than their width, are not modelled; the linked list of children is a sequence.
- Locks, the null test in the scan of `SwitchProcess`, process identifiers and context pointers beyond what the table needs.
- The payload of a TRB is one integer, and filling an entry and pushing it is one step; `GetEntryFromPhysAddr` is left out.
- MidiPlayer.Play: is stated for streams that move on with every read; by `MidiStream.ReadingEndsIff` these are exactly the streams whose reading ends, and on any other the source never stops, so there is no final log to state. `MidiStream.TrackRoundTrip` shows that streams of events of at most 255 bytes move on, and `MidiStream.LongEventStalls` that one of 256 bytes does not.
- Tempo, waiting in real time, the file header and the dispatch of MIDI events to notes; register values written to the sound chip, which is modelled by the note each channel plays; the reference counts are unbounded.
- `Tokenize` returns `Overrun` where the source would write behind the 20-byte name buffer.
- Odd byte counts make `Calc` read the byte behind the end, as the source does; the packet setters of the network code are left out except for the checksum.
