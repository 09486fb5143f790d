# A verified model of the xv6 copy-on-write kernel

This project models, in Dafny, the parts of an x86 xv6 kernel with copy-on-write fork and swap whose
correctness is hard to see: the write-ahead log and the buffer cache under it, copy-on-write memory with
eviction to disk, the file system's blocks, files and directories, the user-level heap allocator, sleep locks,
pipes and the grep matcher. Each module states what the code is for as a simple reference (an image of the
disk, one private array of pages per process, an array of byte sequences, a finite map, a formal language) and
proves that the code, followed step by step, behaves like the reference for every input, every interleaving or
every run.

`dafny verify dfyconfig.toml` checks the whole project.

## What is modelled

**The log (`LogStore`, `LogDevice`, `LogRuns`, `LogLive`; log.c).** `LogStore` gives the meaning of a disk: the image
that `recover_from_log` would reconstruct from it. `LogDevice.Log` is the imperative log: every `bwrite` appends the
disk to a ghost trace, so the contracts of `Commit` and `RecoverFromLog` speak about a crash after every single block
write. `LogRuns` is the state machine of all processes: begin, log_write, end, every block write of commit and
recovery, loading and recycling of clean buffers, and a crash at any moment. `CrashAtomicity` is the main theorem.
`LogLive` adds that the machine gets on: `Settles` carries every run to a state where all that was logged is on the
disk for good.

**The buffer cache (`BioRing`, `BioView`, `Bio`, `BioFull`; bio.c, memide.c).** The LRU ring is the real one, two link
arrays with a ghost sequence beside them. `Bio.Run` interleaves the critical sections of any number of processes,
the two halves of `brelse` apart, and shows that the cache is an array of blocks. `Pages` has the meaning of a page
kept in eight consecutive blocks; the cache's `WritePage` and `ReadPage` and the kernel's are proved against it.
`BioFull` is about the cache when every buffer is pinned by the log or in use.

**Copy-on-write memory (`CowModel`, `CowSteps`, `CowSwap`, `CowFrames`, `CowProcs`, `CowVictim`, `CowBoot`, `CowFork`,
`CowKernel`, `CowLaws`; vm.c, proc.c, kalloc.c).** A page table is a map from page numbers to entries together with
the frames of its page-table pages. `CowModel` has the state, the invariant and the eager-copy specification;
`CowSteps` and `CowSwap` show that each small update keeps the invariant, `CowFrames` that no step loses a frame;
`CowKernel.Kernel` is the imperative kernel, and `Kernel.Run` is the refinement: for every sequence of stores, loads,
sbrk, fork, wait and evictions, and for as long as the kernel does not stop, every process sees what it would see if
fork copied every page and nothing was ever swapped; `CowLaws` spells out what that means for a load after any call,
in bytes. The kernel stops for lack of frames only in a state in which kalloc has nothing to give: no free frame, and
no swap slot, or no page for `select_a_victim` to pick, or one with several owners; a call that takes at most one
frame stops exactly then. With enough frames it stops exactly when it forks a process that has a page swapped out.
Resident sets and pids are kept as the code keeps them, and rss is proved to count the present pages. Requests to sbrk
that would shrink a process to exactly zero bytes are not part of a run; what they do is one of the findings.

**The file system (`FsBytes`, `FsModel`, `FsFile`, `FsTrunc`, `Fs`, `FsOps`, `FsDir`, `FsCrash`,
`FsLive`; fs.c, file.c).** Blocks
are 512 bytes; the bitmap, the dinodes and the indirect blocks are read out of those bytes (bits, little-endian
words), so that a block used for two purposes would show. A ghost account names the one slot that owns each
block in use; no block is marked in use without an owner. `FsOps.Run` is the refinement to an array of byte sequences.
`FsCrash` puts the transactions of one `filewrite` through the runs of the log: `FsCrash.WholeChunks` says that a crash
anywhere leaves the file with a whole number of chunks written, and `FsLive.Performed` that every such call has a run.

**The heap (`Heap`, `HeapWild`, `HeapAlloc`; umalloc.c), sleep locks (`SleepLock`; sleeplock.c, proc.c), pipes (`Pipe`;
pipe.c) and grep (`Grep`; grep.c).** One module or two each.

`Common` has the few definitions the modules share. Where a function of the source can panic, the model returns
`None`, `false`, `Stopped` or `Panicked`, and the contract says exactly when or gives a condition under which it
cannot happen.

## Findings

* `log_write` tests for a full log before it looks whether the block is already in it. Whatever the size of the log,
  three operations that stay within MAXOPBLOCKS can fill it, and the next block that one of them logs again, which
  needs no space, meets the "too big a transaction" panic: `LogRuns.RelogPanics` builds the run. With more than
  LOGSIZE log blocks this happens exactly at lh.n == LOGSIZE, and then every operation has used up its budget
  (`LogRuns.PanicsWhenFull`).
* The same guard is one block tighter than the reservation of `begin_op`: mkfs gives the log LOGSIZE blocks including
  its header. For a block new to its operation the panic is unreachable if and only if the log has more than LOGSIZE
  blocks (`LogRuns.PanicExactly`; `LogRuns.PanicReachable` builds the run otherwise).
* `fork` of a process with a page swapped out panics ("page not present"), however many frames are free. With enough
  frames it does so if and only if a process slot is free and some page below the parent's size is not present
  (`Kernel.Fork`). `Kernel.SwapThenFork` is such a run: when the last frame is gone a page of a process is evicted,
  another process ends and leaves more than enough frames, and the fork of the first panics. It starts from every
  state with no free frame, an evictable page, a free swap slot and a second process whose page tables are numerous
  enough.
* `copyuvm` reads the parent's entry before `mappages` calls kalloc for a page-table page. If that kalloc evicts the
  very page, parent and child end up with the same PTE_S entry, so that two entries name one slot, and `inc_sharing`
  counts a reference to the frame, which the free list has just handed out as the child's page table
  (`CowProcs.OwnPageBreaks`). The step keeps the kernel's invariant if and only if the victim is another page
  (`Kernel.CopyPage`). `CowFork.OwnPageReachable` gets there from boot, on a machine with 25 frames, with the victim
  that `select_a_victim` itself chooses: the first process grows by a page, uses both pages and forks. (A fork without
  the growth, on 24 frames, finds no victim and panics, because `inituvm` does not count its page in rss.)
* `select_a_victim` is no clock and gives no second chance, as line 10 of the repository's README.md says: it keeps no
  hand. In the process with the largest rss it takes the first present page that has not been accessed and, if all
  have been, clears some accessed bits and takes the first present page, just accessed or not (`CowVictim.Chosen`,
  `Kernel.SelectAVictim`).
* `find_new_page_after_swapping` rewrites the victim's entry only. It keeps the invariant if and only if the frame has
  one owner; otherwise a present entry names a free frame (`Kernel.Evict`). So the code does not do what line 10 of
  the repository's README.md says, that swapping a page updates every process that shares it.
* `growproc` with a request that shrinks the process to exactly zero frees every present page, returns an error and
  leaves the size unchanged, because it takes deallocuvm's result 0 for a failure. `Kernel.GrowProc` states it:
  `ShrinksToZero` is the condition, `OnlySwapped` what is left. The next access to such a page finds an all-zero
  entry, which `handle_fage_fault` takes for swap slot 0: `Kernel.HandleFault` changes what a process sees exactly
  then. If another process holds slot 0, the two share a frame that the reverse map counts once, and the slot is
  marked free (`CowProcs.AbsentSteals`).
* `malloc` computes its unit count, and `morecore` its byte count, in 32 bits. `Heap.UnitsExact` gives the exact
  condition under which the block holds the request; malloc(0xFFFFFFFF) asks for one unit. malloc(0xFFFFFFF8) asks
  sbrk for nothing and malloc(0x80000000) for a negative amount, and both return a block at the break that no memory
  backs (`HeapWild.BadRequests`). The block is backed if and only if the unit count, times 8, is a positive int
  (`Allocator.Malloc`), which is so for the requests that fit and those whose unit count has wrapped to one
  (`HeapWild.SmallExactly`).
* The log can pin every buffer. NBUF equals LOGSIZE and log_write pins the block's buffer until commit, so that three
  operations within their budgets pin all NBUF buffers, or all but one with the log that mkfs makes
  (`BioFull.LogPins`). `bget` of a block that is not cached then panics ("no buffers") if and only if every buffer is
  pinned or in use (`BioFull.NoBuffersExactly`), and it can come to that with any division between the two
  (`BioFull.Exhaust`).
* rss counts the present pages of a process exactly, except for the first process, which is a page short because
  `inituvm` does not count its page (`CowVictim.RssIsResident`).
* `make_acces_bit_0` compares with the entry it is about to clear, and clears it on the way, so that a process that
  shares the page and comes later in the process table keeps its accessed bit (`Kernel.MakeAccessBit0`).
* `writei` panics on a full disk after it has allocated and written some of the blocks. It does so if and only if the
  free blocks are fewer than the empty slots in its range, with one more for a missing indirect block
  (`FileSystem.Writei`), so that `FsOps.Run` refines byte sequences up to exactly the first such write.
* mkfs.c starts the data blocks at `nmeta`, which does not count the swap blocks. The layout is the one fs.h describes
  if and only if there are no swap blocks; with the repository's 2000 the data blocks start inside the swap area and
  take in the log, the inodes and the bitmap (`FsModel.MkfsLayoutExactly`).

## Model

| member | source | states |
|---|---|---|
| LogStore.HeadRoundTrip | log.c:85-113 | write_head then read_head gives back the header, whatever stale words the header block held |
| LogStore.InstalledContents | log.c:69-82 | after i installed blocks, those home blocks hold the logged image, the log region is untouched and unlogged blocks keep their contents |
| LogStore.RecoveredIsBase | log.c:115-122 | recovery leaves exactly the image the disk stood for, with an empty log, and recovering again changes nothing |
| LogStore.CopyStep | log.c:177-190 | copying one block to the log keeps the disk's meaning and what readers see, and copies the last modification |
| LogStore.CommitStep | log.c:101-113 | the header write switches the disk's meaning from the old image to everything the cache showed |
| LogStore.InstallKeepsLogOk | log.c:69-82 | writing a logged block home leaves the disk's meaning unchanged |
| LogStore.InstallStep | log.c:69-82 | one turn of install_trans advances the install and keeps the remaining blocks pinned |
| LogStore.EraseStep | log.c:192-202 | erasing the header after a full install leaves the image on the home blocks themselves |
| LogStore.InstallingView | log.c:69-82 | readers see the new image all through install_trans |
| LogDevice.Log.WriteLog | log.c:177-190 | the log receives the latest contents of every logged block; a crash after any write still finds the old image |
| LogDevice.Log.InstallTrans | log.c:69-82 | every logged block reaches its home; a crash after any write still finds the same image |
| LogDevice.Log.ReadHead | log.c:85-96 | the in-memory header becomes the decoding of the header block: n is its word 0 and block[i] its word i + 1 |
| LogDevice.Log.WriteHead | log.c:101-113 | the header block becomes the encoding of the in-memory header, n and block[0..n] in its first words, in one disk write |
| LogDevice.Log.Record | log.c:177-202 | the copies and the header write of commit: a crash before the last write finds the old image, after it the new one |
| LogDevice.Log.Commit | log.c:192-202 | there is one commit point: before it every crash finds the old image, from it on every crash finds the new image with all of the transaction |
| LogDevice.Log.RecoverFromLog | log.c:115-122 | the home blocks hold the image, the log is empty, and a crash after any of its writes can be recovered again |
| LogDevice.Log.BeginOp | log.c:125-141 | an operation is admitted exactly when no commit is running and the log has room for all reservations |
| LogDevice.Log.EndOp | log.c:145-174 | the last operation out commits for all of them with the crash guarantee of commit; others leave the log untouched |
| LogDevice.Log.LogWrite | log.c:213-233 | exact panic condition; otherwise the block is listed once, pinned, and readers see the new data |
| LogRuns.InvNext | log.c:125-233 | every step of any process, every block write and every crash keeps the invariant that ties the disk to the history |
| LogRuns.CrashAtomicity | log.c:69-202 | at any point of any run with any number of crashes, recovery yields the initial image with the closed commit groups applied in order, each made of complete operations |
| LogRuns.ReadsSeeLatest | log.c:125-233 | outside recovery a read sees every operation since the last crash; when nothing is outstanding nothing is uncommitted |
| LogRuns.LogDiscipline | log.c:125-233 | committing implies no outstanding operation, logged blocks are distinct and pinned, lh.n plus all unused budgets stays within LOGSIZE, and every log block lies inside the log |
| LogRuns.LogWriteAccounting | log.c:213-233 | a log_write within an operation's budget keeps the space accounting, absorbed or not |
| LogRuns.PanicsWhenFull | log.c:213-233 | with more than LOGSIZE log blocks, a log_write within its budget panics exactly at lh.n == LOGSIZE; then no budget is left and the block was already logged by its operation |
| LogRuns.NoPanicWithRoom | log.c:213-233 | with more than LOGSIZE log blocks, an operation that logs a block new to it within its budget never meets the "too big" panic |
| LogRuns.PanicReachable | log.c:213-233 | with at most LOGSIZE log blocks, three operations within their budgets reach that panic with a new block |
| LogRuns.RelogPanics | log.c:213-233 | whatever the size of the log, three operations within their budgets reach that panic by logging a block again |
| LogRuns.PanicExactly | log.c:213-233 | for a blank log the panic is reachable within the budgets at every size; for blocks new to their operation it is unreachable if and only if the log has more than LOGSIZE blocks |
| LogLive.Admits | log.c:125-233 | in every reachable state: exactly when an operation can begin, log a block and end; blocks are read, clean buffers recycled and the machine crashed at any time |
| LogLive.Settles | log.c:115-202 | from every point of every run, after the end of the outstanding operations, commit and recovery finish by themselves, and from then on every recovery finds all that had been logged |
| BioRing.NoRepeat | bio.c:29-36 | following the links once round meets no buffer twice |
| BioRing.PushLinked | bio.c:50-54 | linking a buffer in behind the head keeps one well-formed ring |
| BioRing.DropLinked | bio.c:132-133 | unlinking a buffer keeps one well-formed ring of the others |
| BioRing.MoveKeeps | bio.c:132-137 | moving a buffer to the front keeps the ring complete and sorted by last release |
| BioRing.Binit | bio.c:38-56 | the initial links form one ring through all NBUF buffers |
| BioView.ViewRecycled | bio.c:78-91 | recycling an idle clean buffer for an uncached block changes no block's logical contents and keeps one buffer per block |
| BioView.ViewWritten | bio.c:109-116 | writing a buffer changes the logical contents of its block to its data and of no other block |
| Pages.PageRoundTrip | bio.c:147-167 | a page written to a swap slot and read back is the same page |
| Pages.PageElsewhere | bio.c:147-167 | writing a page leaves pages in disjoint slots as they were |
| Bio.Cache.constructor | bio.c:38-56 | every buffer is idle at device 0, block 0, on one ring, over the given disk |
| Bio.Cache.Find | bio.c:69-76 | finds a buffer of the block, or there is none |
| Bio.Cache.FindUnused | bio.c:81-91 | finds the idle clean buffer whose last release is oldest, or every buffer is in use or pinned |
| Bio.Cache.Bget | bio.c:61-93 | exact "no buffers" condition; otherwise the block's one buffer with one more user, recycled only from an idle clean buffer, logical contents unchanged |
| Bio.Cache.Iderw | memide.c:38-60 | exact panic condition; a dirty buffer is written out and cleaned, an invalid one is filled from the disk |
| Bio.Cache.Fill | bio.c:96-106 | the buffer holds the block's latest logical contents, and the "nothing to do" panic is never reached |
| Bio.Cache.Pin | log.c:231 | a pinned buffer keeps its block's logical contents and is in use until written |
| Bio.Cache.Bwrite | bio.c:109-116 | exact panic condition; the disk and the logical contents take the buffer's data |
| Bio.Cache.Unlock | bio.c:123-126 | panics exactly when the caller does not hold the lock; otherwise only the lock changes, and the caller is still counted |
| Bio.Cache.Drop | bio.c:128-140 | whoever holds the lock by now, the count goes down by one and never below zero; the last user moves the buffer to the front, contents unchanged |
| Bio.Cache.Brelse | bio.c:120-141 | without interruption: exact panic condition; the reference count never underflows, the last release moves the buffer to the front, contents unchanged |
| Bio.Cache.Bread | bio.c:96-106 | returns a locked buffer with the block's logical contents; exact failure condition |
| Bio.Cache.WritePage | bio.c:147-156 | the eight blocks hold the page and no other block changes; it cannot fail while some buffer is idle |
| Bio.Cache.ReadPage | bio.c:159-166 | returns the eight blocks joined and changes no contents; it cannot fail while some buffer is idle |
| Bio.BreadIsProper | bio.c:96-106 | the steps of a bread are never skipped in a run |
| Bio.UseIsProper | bio.c:7-14 | who has a buffer locked and loaded can look, change, pin and write it out, and keeps it |
| Bio.BrelseIsProper | bio.c:120-141 | a buffer written out or pinned can be released |
| Bio.Perform | bio.c:61-141 | one step of one process: exact panic condition, its effect on buffers, locks, users and disk, and what it means on a plain array of blocks |
| Bio.Run | bio.c:38-141 | over any interleaving of the critical sections of any number of processes every read sees the last write to its block; every step of the script has its effect, in order, up to the first that panics |
| BioFull.NoBuffersExactly | bio.c:81-92 | "no buffers" is reached exactly when the block is not cached and the pinned and the held buffers make up all NBUF |
| BioFull.Exhaust | bio.c:61-92 | for every k, k logged blocks and NBUF - k more in use leave no buffer for another block |
| BioFull.LogPins | log.c:213-233 | three operations within their budgets pin NBUF different blocks if the log has room for LOGSIZE of them, and otherwise one fewer than the log has blocks |
| CowModel.IncrementedEntry | proc.c:66-84 | inc_sharing records the new entry once and counts it |
| CowModel.DecrementedEntry | proc.c:86-113 | dec_sharing removes exactly the given entry and counts it |
| CowModel.RefcountIsPresentSlots | proc.c:61-113 | refcount equals the number of set present_id slots |
| CowSteps.RoomForOneMore | proc.c:66-84 | sharers sit at the same page number, so the NPROC slots always have room for one more process |
| CowSteps.SoleOwner | proc.c:61-64 | a frame with refcount 1 is named by one entry |
| CowSteps.MapKeeps | vm.c:226-261 | mapping a fresh frame keeps every invariant |
| CowSteps.ShareKeeps | vm.c:391-452 | sharing a page read-only with the child keeps every invariant |
| CowSteps.MakeWritableKeeps | proc.c:945-996 | setting PTE_W on the only entry of a frame keeps every invariant and everybody's memory |
| CowSteps.RetargetKeeps | proc.c:945-996 | pointing an entry at a private copy keeps every invariant |
| CowSteps.StoreKeeps | proc.c:945-996 | a store through a writable entry changes one byte of one process's memory |
| CowSteps.UnmapKeeps | vm.c:267-300 | removing a present page keeps every invariant |
| CowSwap.SlotRoundTrip | proc.c:902-943 | the eight sectors of a slot give back the page written to them, and no other slot changes |
| CowSwap.SwapOutKeeps | proc.c:902-943 | evicting a page with one owner keeps every invariant and everybody's memory |
| CowSwap.SwapInKeeps | proc.c:945-996 | bringing a page back keeps every invariant and everybody's memory |
| CowSwap.CleanKeeps | proc.c:998-1023 | giving back the slots of a dead process keeps the others' slots |
| CowFrames.LastReferenceFreed | vm.c:267-300 | while no frame is lost, a frame that has lost its last reference is on the free list |
| CowFrames.SwapOutLeak | proc.c:902-943 | evicting a page leaves no frame outside the free list, the page tables and the page mappings |
| CowFrames.DropTableLeak | vm.c:359-375 | giving up a page-table page puts its frame on the free list and loses none |
| CowProcs.CalmTrans | proc.c:902-943 | any number of evictions leaves every process's memory as it was |
| CowProcs.CalmForking | vm.c:391-452 | an eviction in the middle of copyuvm does no harm to the pages shared so far |
| CowProcs.GrownView | proc.c:250-269 | a grown process sees zero pages above its old size and nobody else sees a change |
| CowProcs.ForkedView | proc.c:274-317 | after copyuvm the child sees a copy of the parent's memory |
| CowProcs.ShrunkView | proc.c:250-269 | a shrunk process sees its remaining pages and nobody else sees a change |
| CowProcs.EmptiedView | proc.c:250-269 | shrinking to exactly zero leaves the swapped pages under the old size |
| CowProcs.OwnPageBreaks | vm.c:408-421 | when kalloc has evicted the page being copied, parent and child name one slot, the frame of the child's page table has a reference no entry makes, and the invariant is false |
| CowProcs.AbsentSeen | proc.c:971-992 | a fault on an all-zero entry makes a page appear in the process |
| CowProcs.AbsentSteals | proc.c:971-992 | when slot 0 is held by another page, that fault leaves two present entries on one frame with refcount 1, the slot free and the invariant false |
| CowProcs.SharedVictim | proc.c:902-943 | freeing the frame of a victim that a second entry names breaks the invariant |
| CowVictim.Chosen | proc.c:838-900 | a page is chosen if and only if the resident set is at least a page and some page below the size is present; it is the first present page that has not been accessed, or, if all have, the first present page |
| CowVictim.SelectVictimProcess | proc.c:665-695 | the process with the largest resident set, and of those the smallest pid |
| CowVictim.AccessKeeps | proc.c:815-835 | changing accessed bits of present entries keeps every invariant and everybody's memory |
| CowVictim.AgedChosen | proc.c:860-896 | after the second pass the choice is the same page, now not accessed |
| CowVictim.RssIsResident | proc.c:427-440 | what getrss prints is a page for every present page of the process, for the first process at most one page less, and 0 for an unused slot |
| CowVictim.StarvedUnless | proc.c:902-943 | kalloc has nothing to give exactly when the choice is none or a page with several owners, or no slot is free, and clearing accessed bits does not change that |
| CowBoot.FrameAccounting | kalloc.c:64-116 | refcount is the number of present entries and of set slots; every frame is free, mapped or a page table, and a free one neither mapped nor a table; num_free_pages is the length of the free list |
| CowBoot.SlotsNeverOverflow | proc.c:66-84 | inc_sharing never finds the NPROC slots full: for a new page, for a page that comes back from its slot, or for one more sharer |
| CowBoot.SlotsUnaliased | proc.c:718-741 | no two entries with PTE_S name the same swap slot |
| CowBoot.WritableIsPrivate | proc.c:945-996 | an entry with PTE_W names a frame no other entry names |
| CowBoot.BootValid | proc.c:214-246 | the machine with its first process satisfies the invariant, frames conserved, and the process has exactly the pages below its size |
| CowFork.OwnPageFollows | vm.c:391-452 | whenever the child's page table is missing, no frame is free and the page being copied can be evicted, evicting it is what the eviction code does and breaks the invariant |
| CowFork.OwnPageReachable | vm.c:391-452 | such a state is reached from boot on a machine with 25 frames; with any pids and resident sets the kernel may have counted there, the victim select_a_victim chooses is the page being copied, and evicting it breaks the invariant whatever accessed bits were cleared |
| CowModel.EagerRun | proc.c:250-424 | over every run of calls, from processes that have exactly the pages below their sizes, they keep having exactly those |
| CowKernel.Kernel.constructor | proc.c:214-246 | the first process has one page with the given contents, nobody else exists, every frame is accounted for and pids and resident sets are in order |
| CowKernel.Kernel.Kfree | kalloc.c:64-83 | every byte of the frame becomes 1, and it goes on the free list and is counted |
| CowKernel.Kernel.Kalloc | kalloc.c:89-116 | fails if and only if no frame is free and none can be made free; otherwise an unused frame, after an eviction that nobody can see when the list is empty, and then it is the victim's; no other frame is lost |
| CowKernel.Kernel.MakeRoom | proc.c:902-943 | with no frame free, the page select_a_victim picks gives up its frame; fails if and only if there is no such page, it has several owners or no slot is free |
| CowKernel.Kernel.IncSharing | proc.c:66-84 | the count goes up and the entry is recorded in a free slot |
| CowKernel.Kernel.DecSharing | proc.c:86-113 | panics exactly when the entry is not recorded; otherwise removes it and reports the last reference |
| CowKernel.Kernel.FindPteSwapOut | proc.c:718-741 | panics exactly when a page table is missing before the first match; otherwise records and unshares the first entry equal to the victim's, or there is none below the size |
| CowKernel.Kernel.MakeOtherPteSwappedOut | proc.c:763-774 | the scan never panics; for a frame with one owner exactly the victim is recorded |
| CowKernel.Kernel.MakeAccessBit0 | proc.c:815-835 | exactly the entries equal to the given one that come no later in the scan lose their accessed bits, and nothing else changes |
| CowKernel.Kernel.SelectAVictim | proc.c:838-900 | picks, in the process with the largest resident set, the page CowVictim.Chosen names, and would pick it again; it changes nothing when that page had not been accessed, and otherwise the first tenth of the process's accessed pages lose their bits, and nothing but accessed bits changes elsewhere |
| CowKernel.Kernel.Evict | proc.c:902-943 | fails exactly when no slot is free; otherwise the victim's entry alone becomes a swapped one and its frame is first on the free list; the invariant survives if and only if the frame had one owner, and then nobody's memory changes and no frame is lost |
| CowKernel.Kernel.HandleFault | proc.c:945-996 | somebody's memory changes exactly when the entry is all zero; otherwise a present page becomes writable, a swapped page comes back with its saved flags, A set, W and S clear, and its slot is free; it fails if and only if it needs a frame and kalloc has none |
| CowKernel.Kernel.CopyOnWrite | proc.c:945-996 | a shared page gets a private writable frame; the other sharers are untouched; fails exactly when kalloc does |
| CowKernel.Kernel.SwapIn | proc.c:971-992 | the page's bytes come back from its slot, the slot is free and no frame is lost; an all-zero entry is taken for slot 0; fails exactly when kalloc does |
| CowKernel.Kernel.FaultForStore | proc.c:945-996 | a pending store completes after at most two faults |
| CowKernel.Kernel.UserStore | proc.c:945-996 | a store changes exactly that byte of that process's memory, after at most two faults; fails exactly when it needs a frame and kalloc has none |
| CowKernel.Kernel.UserLoad | proc.c:945-996 | a load returns the process's byte and changes nobody's memory; fails exactly when the page is not present and kalloc has no frame |
| CowKernel.Kernel.WalkAlloc | vm.c:35-58 | the page-table page exists afterwards and nobody's memory changes; fails exactly when it was missing and kalloc has no frame |
| CowKernel.Kernel.AllocUvm | vm.c:226-261 | the pages up to the new size are present and zero; fails only when kalloc has nothing to give, and for one page under an existing page table exactly then |
| CowKernel.Kernel.DeallocUvm | vm.c:267-300 | exactly the present pages in the range are dropped, and every frame that loses its last reference is on the free list |
| CowKernel.Kernel.GrowProc | proc.c:250-269 | refines sbrk on private memory, except exactly when it shrinks the process to zero; every byte of a new page is 0; stops only when kalloc has nothing to give |
| CowKernel.Kernel.SetupKernelHalf | vm.c:123-142 | the new process has a kernel stack, a directory and the nine kernel page tables of its own, and nothing else |
| CowKernel.Kernel.CopyPage | vm.c:400-422 | panics exactly when the parent's page is not present; otherwise the page is shared read-only, unless the child's page table is missing and kalloc has nothing to give, or evicts this very page, and exactly then the invariant is broken |
| CowKernel.Kernel.CopyUvm | vm.c:391-452 | every page of the parent is shared read-only with the child; it stops for frames only when kalloc has nothing to give and over a page only when one is not present, and with enough frames exactly then |
| CowKernel.Kernel.Fork | proc.c:274-317 | fails exactly without a process slot; otherwise the child's memory is a copy of the parent's and nobody else's changes; it stops for frames only when kalloc has nothing to give, and with enough frames panics exactly when a slot is free and a page of the parent is swapped out |
| CowKernel.Kernel.SwapThenFork | proc.c:274-317 | with no frame free, evicting a page, reaping another process and forking the first panics with all the frames fork could want |
| CowKernel.Kernel.CleanProcData | proc.c:998-1023 | exactly the slots that the process's swapped entries name become free, and no other slot changes |
| CowKernel.Kernel.FreeVm | vm.c:359-375 | the process has no page tables left and no frame is lost: what it alone used is on the free list; the others' memory is unchanged |
| CowKernel.Kernel.Reap | proc.c:371-424 | the zombie's memory is gone, its frames are free or still shared and those of its page tables free, exactly its slots become free, and every other process's memory is unchanged |
| CowKernel.Kernel.Perform | proc.c:250-424 | each call refines its eager counterpart or stops; it stops for frames only when kalloc has nothing to give, exactly then if it takes at most one frame; with enough frames it stops exactly when it forks a process that has a page swapped out |
| CowKernel.Kernel.Run | proc.c:250-424 | every run of calls refines the same run on eagerly copied, never swapped memory; it stops only when kalloc has nothing to give, at a fork of a process that has a page swapped out, or with the invariant broken by the eviction of the page being copied |
| CowLaws.PagesBelowSize | vm.c:226-261 | a page belongs to a process exactly when its first byte lies below the size |
| CowLaws.LoadsNothing | proc.c:945-996 | a load changes nothing |
| CowLaws.StoreThenLoad | proc.c:945-996 | a store is seen by its process at its address and by nobody anywhere else |
| CowLaws.GrowThenLoad | proc.c:250-269 | after sbrk upward a load from a new page gives 0, and every other load what it gave before; fails exactly at KERNBASE |
| CowLaws.ShrinkThenLoad | proc.c:250-269 | after sbrk downward a process has exactly the pages below its size, unchanged, and nobody else sees a change |
| CowLaws.ForkThenLoad | proc.c:274-317 | the child loads what the parent would, and nobody else sees a change; fork fails exactly when every slot is taken |
| CowLaws.ForkIsolates | proc.c:274-317 | after fork neither parent nor child sees what the other stores |
| CowLaws.WaitThenLoad | proc.c:371-424 | the process waited for is gone and nobody else sees a change |
| FsBytes.OrBitTest | fs.c:66-68 | setting a bit sets that bit and no other |
| FsBytes.ClearBitTest | fs.c:88-92 | clearing a bit clears that bit and no other |
| FsBytes.WordSet | fs.c:390-395 | an entry stored in an indirect block is read back, and the other entries are unchanged |
| FsModel.BitsSet | fs.c:66-68 | marking a block changes that block's bit only, across all bitmap blocks |
| FsModel.BitsCleared | fs.c:87-92 | clearing a block's bit changes that bit only |
| FsModel.MkfsLayoutExactly | mkfs.c:94-110 | mkfs's layout is that of fs.h if and only if there are no swap blocks; with 2000 of them the data blocks start inside the swap area, below log, inodes and bitmap |
| FsModel.PointerCore | fs.c:379-389 | storing a fresh block in the inode keeps the block map, single ownership and the bitmap in agreement |
| FsModel.EntryCore | fs.c:390-395 | storing a fresh block in the indirect block keeps them in agreement |
| FsModel.LacksBound | fs.c:373-401 | what a range of blocks lacks grows with the range and is at most its length and one indirect block |
| FsFile.MapKeeps | fs.c:373-401 | allocating a block leaves every byte the file already had |
| FsFile.MapNeeds | fs.c:373-401 | after the blocks up to bn the disk has given up exactly what the range lacked; bmap stops exactly where the range lacks more than was free |
| FsFile.StoreKeeps | fs.c:500-504 | the copy puts exactly the next bytes in place |
| FsFile.FileKept | fs.c:482-512 | a write to one inode leaves every byte of the others |
| FsFile.InodeWritten | fs.c:221-237 | iupdate makes the inode's dinode equal to it and leaves the other dinodes of the block |
| FsModel.DinodeDetermines | fs.c:221-237 | a dinode gives back every field of the inode it was made from |
| FsTrunc.FreedPending | fs.c:408-436 | a block itrunc has yet to free still has its bit set |
| FsTrunc.EmptiedCore | fs.c:408-436 | with all slots freed, ownership, bitmap and block map agree again |
| Fs.BlankDisk | mkfs.c:239-253 | with the layout of fs.h exactly the blocks below the data blocks are marked in use |
| Fs.FileSystem.constructor | mkfs.c:94-117 | a blank disk with the layout of fs.h has no file contents and satisfies the invariant |
| Fs.FileSystem.Balloc | fs.c:56-78 | the first block whose bit is clear, marked and zeroed, never one in use; panics exactly when there is none |
| Fs.FileSystem.Bfree | fs.c:81-95 | panics exactly when the bit is clear; otherwise clears that bit only |
| Fs.FileSystem.Bmap | fs.c:373-401 | the block of the slot, or a zeroed block newly owned by that slot alone; it allocates exactly what is missing and panics exactly when the disk has not that many blocks; bounds on the blocks logged |
| Fs.FileSystem.Iupdate | fs.c:221-237 | the dinode on disk equals the inode in memory and the invariant is kept |
| Fs.FileSystem.Readi | fs.c:453-477 | exact error condition with 32-bit wrap; otherwise the requested slice clipped to the size, with nothing allocated or changed |
| Fs.FileSystem.Writei | fs.c:482-512 | exact error condition; the file's bytes are spliced at off, no other file changes, the inode on disk is current, every changed block is logged and at most Budget blocks are; it allocates exactly the blocks the range lacks, and panics exactly when the disk has fewer |
| Fs.FileSystem.Itrunc | fs.c:408-436 | the file is empty, exactly its blocks' bits are cleared, no other file changes, every changed block is logged, and "freeing free block" is never reached |
| FsOps.ChunkFits | file.c:127-151 | a chunk of at most ((MAXOPBLOCKS-1-1-2)/2)*512 bytes logs at most MAXOPBLOCKS blocks at every offset |
| FsOps.ChunkTight | file.c:127-133 | the bound on some such chunk is exactly MAXOPBLOCKS, and that of a chunk one block larger exceeds it |
| FsOps.WriteChunk | file.c:140-145 | one transaction of filewrite logs every block it changes, at most MAXOPBLOCKS distinct ones, and writes all of its bytes or none; it panics exactly when the disk has not the blocks it lacks |
| FsOps.FileWrite | file.c:117-156 | whole chunks are written in order up to the first refusal, the offset follows, the result is n or -1, every transaction fits its reservation, and between two of them only logged blocks differ |
| FsOps.Perform | fs.c:408-512 | readi, writei and itrunc refine their meaning on byte sequences; it panics exactly at a write for which the disk lacks the blocks |
| FsOps.Run | fs.c:373-512 | every run of reads, writes and truncations refines the same run on plain byte sequences, up to exactly the first write for which the disk lacks the blocks |
| FsCrash.ScriptApplies | log.c:213-233 | the log_writes of one transaction, in any order that ends with each block's latest contents, turn the disk before it into the disk after it |
| FsCrash.WholeChunks | file.c:117-156 | over every run of the log that performs a filewrite's transactions and stops at any step, with any number of crashes, recovery leaves the file system after the chunks whose commits reached the disk, and no part of another |
| FsCrash.AllChunks | file.c:117-156 | once the call is over and the log idle, recovery leaves all of its chunks |
| FsLive.ScriptsExist | file.c:137-151 | the transactions of every filewrite have log_writes that make them |
| FsLive.Performed | file.c:117-156 | whatever the log_writes of its transactions, a run of the log makes them all, commits each and comes to rest, if no transaction exceeds its budget and the log has more than MAXOPBLOCKS + 1 blocks |
| FsDir.Namecmp | fs.c:517-521 | compares a string with a name field exactly on the first DIRSIZ bytes |
| FsDir.Strncpy | string.c:68-79 | the field holds the string, padded with zeros or cut at DIRSIZ bytes |
| FsDir.LinkedDir | fs.c:552-579 | setting an empty or new entry adds exactly its binding to the directory's map |
| FsDir.LinkedOk | fs.c:552-579 | names stay unique |
| FsDir.EntryInBlock | fs.c:552-579 | an entry never straddles two blocks |
| FsDir.Dirlookup | fs.c:525-549 | finds the binding of the name cut to DIRSIZ bytes, and its entry, with that inode number and not 0, or the map has none; changes nothing |
| FsDir.Dirlink | fs.c:552-579 | refuses exactly a name already bound; otherwise adds exactly that binding in the first empty entry or at the end, and changes no other file; exact panic condition |
| Heap.UnitsExact | umalloc.c:63-70 | the unit count holds the request exactly for requests that do not overflow; malloc(0xFFFFFFFF) asks for one unit |
| Heap.InsertOk | umalloc.c:24-44 | linking a block in keeps one address-ordered cycle through base |
| Heap.RemoveOk | umalloc.c:24-44 | unlinking a block keeps the cycle |
| Heap.AddUnits | umalloc.c:24-44 | the freed units join the lower neighbour or become a block; they are free exactly once |
| Heap.AddWithUpper | umalloc.c:24-44 | the upper neighbour is merged in and no two free blocks touch |
| Heap.FreeAtRing | umalloc.c:24-44 | the coalescing writes of free give an ordered cycle with disjoint, non-touching blocks that covers exactly the freed bytes more |
| Heap.FreeAtLive | umalloc.c:24-44 | the remaining live blocks stay disjoint from each other and from the free list |
| HeapAlloc.TakeExact | umalloc.c:75-77 | unlinking an exact fit moves exactly its bytes from free to live |
| HeapAlloc.TakeTail | umalloc.c:78-83 | cutting the tail of a block moves exactly those bytes from free to live |
| HeapWild.SmallExactly | umalloc.c:52-54 | sbrk's argument is positive exactly for the requests that fit and those whose unit count has wrapped to one |
| HeapWild.BadRequests | umalloc.c:46-61 | malloc(0xFFFFFFF8) passes sbrk 0 and malloc(0x80000000) a negative int that leaves the break in place |
| HeapWild.NoWrap | umalloc.c:33-42 | the coalescing tests of free do not overflow for blocks that end below 2^32 |
| HeapWild.WildLinked | umalloc.c:24-44 | after free has taken the unbacked block the list is one ordered cycle again, and that block is the only one large enough |
| HeapWild.WildTaken | umalloc.c:74-86 | taking it gives the block at the old break and restores the list, unless free had taken its end for base |
| HeapWild.WildHeap | umalloc.c:63-90 | the heap is then as it was |
| HeapAlloc.Allocator.FindPlace | umalloc.c:30-32 | the ring walk terminates at the block after which the freed block belongs |
| HeapAlloc.Allocator.Free | umalloc.c:24-44 | the block leaves the live set and its bytes join the free list, coalesced into one block |
| HeapAlloc.Allocator.MoreCore | umalloc.c:46-61 | fails if and only if sbrk refuses the bytes of the larger of nu and 4096 units; for a byte count that is a positive int the new region has exactly that size and some free block is then large enough, merged or not; for any other the block put on the list is the only one large enough, and no memory backs it |
| HeapAlloc.Allocator.Turn | umalloc.c:74-86 | one turn of the ring finds a large enough block and its predecessor, or there is none |
| HeapAlloc.Allocator.Search | umalloc.c:63-90 | the search terminates for every request; it fails if and only if no block is large enough and sbrk refuses; it asks sbrk for nothing while a block is large enough; what it finds for a request too large for sbrk is the stray block |
| HeapAlloc.Allocator.Malloc | umalloc.c:63-90 | for every request: 0 if and only if no block is large enough and sbrk refuses; otherwise memory backs the block if and only if sbrk's argument was positive, and then it is a fresh live block disjoint from all others, with room for the request exactly when the request fits; an unbacked block lies at the old break, and the heap survives it unless the break came down |
| SleepLock.MutualExclusion | sleeplock.c:22-42 | in every run at most one process holds the lock |
| SleepLock.NoLostWakeup | proc.c:545-602 | in every run, when the inner spinlock is free and the lock is not held, nobody sleeps on it or is about to |
| SleepLock.HoldingSleepExact | sleeplock.c:44-53 | holdingsleep is true exactly for the owner, and pid is 0 while the lock is free |
| SleepLock.SleepersAwaited | proc.c:586-602 | a sleeper always has an owner or a passing waker to wait for |
| SleepLock.LeavesAsOwner | sleeplock.c:22-33 | in every run, who is in acquiresleep stays in it or leaves it with the lock set and its own pid |
| SleepLock.WaiterCanWin | sleeplock.c:22-42 | from every reachable state, who is in acquiresleep or about to call it gets the lock in some continuation |
| SleepLock.SleeperCanBeKilled | proc.c:607-626 | whenever ptable.lock is free a sleeper can be made runnable with the lock still held |
| SleepLock.NextKeeps | proc.c:545-626 | every step of acquiresleep, releasesleep, sleep, wakeup and kill keeps the invariant |
| Pipe.Counters | pipe.c:84-94 | counters modulo 2^32 tell an empty and a full pipe apart and index the ring correctly when they wrap |
| Pipe.SlotsDiffer | pipe.c:93 | two bytes in the pipe together never share a ring position |
| Pipe.Channel.constructor | pipe.c:22-46 | a new pipe is empty with both ends open |
| Pipe.Channel.Write | pipe.c:78-98 | the bytes written join the end of the pipe in order; it sleeps or fails only when the pipe is full |
| Pipe.Channel.Take | pipe.c:100-121 | the oldest bytes are returned and the rest stays; exact conditions for waiting and failing |
| Pipe.Channel.Close | pipe.c:59-75 | one end closes and the contents stay |
| Pipe.Run | pipe.c:78-121 | over any schedule the pipe is the plain queue of Pipe.AfterStep: bytes read followed by bytes in the pipe are the bytes written, each writer's in order and as far as there was room |
| Pipe.PlayedInOrder | pipe.c:78-121 | on the plain queue, over any schedule, what was read is the front of what was written, and each writer's bytes are in order |
| Grep.HereStar | grep.c:99-106 | a starred item matches exactly when some number of accepted characters can be skipped |
| Grep.HereOne | grep.c:85-96 | a single item matches exactly when it accepts the first character and the rest matches |
| Grep.Match | grep.c:72-82 | accepts exactly the texts that the pattern's language accepts somewhere, or at the start after ^ |
| Grep.MatchHere | grep.c:85-96 | accepts exactly the texts with a prefix in the language, all of it when the pattern ends in $ |
| Grep.MatchStar | grep.c:99-106 | accepts exactly when some run of accepted characters is followed by a match of the rest |

## Left out

- Fs.FileSystem.Readi: device inodes (T_DEV) are excluded, because their contents are not in the file system.
- Fs.FileSystem.Writei: device inodes are excluded; that the log budget counts blocks of one transaction assumes the log absorbs repeated blocks, which the log model shows.
- FsDir.Dirlookup: iget and the in-memory inode table are not modelled; the inode number is returned. The directory has whole entries and unique names; dirlookup's panic on a partial entry and its choice between two entries of one name are not modelled.
- FsOps.WriteChunk: device inodes are excluded, as in Writei.
- FsOps.FileWrite: device inodes and pipes are excluded; of a call that panics, only how far it got and that the disk was nearly full are stated, `FsOps.WriteChunk` having the exact condition for each chunk.
- FsCrash.WholeChunks: the writer is the only process with operations, and the blocks of the file system lie outside the log; which log_writes a transaction makes is left open but for the last contents of each block.
- FsDir.Dirlink: the iput of an existing entry is not modelled, and the directory must be well formed (whole entries, unique names) to begin with.
- HeapAlloc.Allocator.MoreCore: the kernel's answer to sbrk is an argument: a refusal, or how far the break has moved since.
- HeapAlloc.Allocator.Malloc: the single loop of the source is written as a turn of the ring, morecore and a second turn; the write of a header above the break is taken to succeed, where the hardware may trap; nothing is said about the heap after a request that moved the break down.
- Bio.Cache.Bread: the wait for a buffer that another process holds is not part of the method; `Bio.Run` has it as a step of its own.
- Bio.Cache.Unlock: a caller that changed the data must have written it out or pinned it, as the interface comment of bio.c asks.
- Bio.Cache.Drop: that its caller has been through Unlock is not asked, so that `Bio.Run` covers more interleavings than bio.c has.
- Bio.Cache.Brelse: a caller that changed the data must have written it out or pinned it, as the interface comment of bio.c asks.
- Bio.Cache.WritePage: no other process holds the page's buffers during the call.
- Bio.Cache.ReadPage: no other process holds the page's buffers during the call.
- Fs.BlankDisk: needs the layout of fs.h, which mkfs's is only without swap blocks; the files that mkfs adds are not modelled.
- Fs.FileSystem.constructor: needs the layout of fs.h.
- FsOps.ChunkTight: is about the bound; a write that logs ten different blocks needs four bitmap blocks, which no disk of this repository's size has.
- Pipe.Channel.Close: freeing the pipe's page is not modelled.
- CowKernel.Kernel.Kalloc: stops short of evicting a page with several owners, which breaks the invariant, as `Kernel.Evict` shows; nothing is claimed about the kernel after that.
- CowKernel.Kernel.CopyPage: stops after the step that breaks the invariant; copyuvm goes on.
- CowKernel.Kernel.SwapIn: an owner recorded for a slot is a process and a page, so that a pointer into a page table that is gone is not modelled.
- CowKernel.Kernel.HandleFault: faults above the process size, which the source does not reject, are excluded.
- CowKernel.Kernel.SelectAVictim: an unused slot, which it picks only when every rss is 0, has no pages, where the source reads the freed page directory without effect; which accessed bits of the other processes are cleared is stated of `Kernel.MakeAccessBit0` only.
- CowModel.EagerRun: calls that make no sense, and sbrk to exactly zero bytes, are skipped.
- Swap, one of the calls of a run, evicts any page with one owner of a process with a page to spare, which the code does only inside kalloc and for the page it picks: runs have more evictions than the code makes.
- The TLB, PTE_U checks, when the hardware sets the A bit, and pids beyond the int range.
- Reclaiming swap slots on sbrk shrink and exec: entries with PTE_S above the size keep their slots; no aliasing is claimed, not absence of leaks.
- Processes being created while an eviction scans the process table.
- Disjointness of the swap, log and file-data regions, which is assumed, as the layout computed by mkfs.c does not provide it.
- Concurrency inside the file system: operations on inodes are taken one at a time; their log transactions and their buffers are the subject of the log and cache models.
- ialloc, iget, iput, path lookup, unlink and the system calls above them: they would add mostly easy members.
- exec, exit's file handling, scheduling, traps, interrupts, devices and boot code.
- grep's input buffering and the other user programs.
