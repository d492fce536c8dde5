# A verified model of the OS kernel, its file system and its shell

The repository is a small x86 operating system: a FAT-like cluster file system, 4 MiB paging, a process table with a
round-robin scheduler driven by the timer interrupt, and a user-space shell. This project models its stateful parts in
Dafny and proves what they keep over every call and every run.

## The file system (src/fat32.c)

- `Bytes`, `Directory`, `Fat`: the on-disk layouts (32-byte entry, 64-slot table, 512-word allocation table) with their
  decoders proved to be inverses, and the algebra of cluster chains: first-fit search, linking, walking, clearing.
  The entry layout is that of the Microsoft FAT32 File System Specification v1.03, section "FAT Directory Structure".
- `Volumes`: a mounted volume (2048 clusters and the cached table) and every operation as a function from volume to
  volume, result code and the list of cluster writes it issues.
- `Tree`: the invariant. A layout - depth of each reachable directory, owner (directory, slot) of each cluster in use -
  witnesses that the tables describe a tree whose chains ascend, end, have the right length and never cross. Clusters
  that are allocated but owned by nobody are allowed.
- `Views`: what a user sees, as a function from paths of slot numbers to entries and file contents.
- `Writing`, `Reading`, `Deleting`, `Changes`: what each operation does to volume and layout.
- `Guarantees`, `Emptiness`, `Crash`, `DeleteCrash`, `FormatCrash`, `StaleEntries`, `Runs`: the theorems in the callers' terms - a well-formed volume, a
  directory that can be reached, the code that came back.
- `Replies`: what each operation answers to every request, and what write and format store, byte by byte.
- `Device`, `Driver`: the in-memory disk of src/external-inserter.c with a ghost log of the sectors written, and the
  driver as a class over it - arrays updated in place, the source's loops - each method proved to compute the function of
  `Volumes`, its sector log included.

A volume is well formed (`Volumes.WellFormed`) when it is signed, its cached table is the one on cluster 1, and some
layout makes it a tree.

## The kernel (src/paging.c, src/process.c, src/scheduler.c, src/intsetup.s, src/scheduler.s, src/interrupt.c)

- `Paging`, `Processes`, `Scheduler`: specification functions and classes or methods proved to compute them.
- `AddressSpaces`, `NewProcesses`, `Rounding`: which addresses are mapped, what a new process starts with, and what single
  precision makes of a page count.
- `Interrupt`: the registers as they travel over the kernel stack, word by word: pushed by the processor (Intel Software
  Developer's Manual, volume 3A, section 6.12.1) and by the entry code, saved as a context, restored by
  `process_context_switch`.
- `KernelRuns`: the machine as a transition system of ticks, creations, destructions and user instructions, and the
  theorems over whole runs. `AlwaysOk` - isolation, the accounting, at most one running process - holds whatever happens.
  `NearlyOk` adds the page directories and CR3 and holds as long as each event is `Possible`: no creation misses a
  directory. `KernelOk` adds that the running process is active; only a process 0 that misses itself breaks that, and the
  next tick repairs it.
- `KernelMapping`: the kernel's own entry in the page directories. `KernelCases`: runs that reach the harmful events.
  `Waiting`: how long a process waits for its turn when anything may happen in between.

## The shell (src/user-shell.c)

- `PendingQueue`, `Levels`, `Find`: the ring buffer, the order of the breadth-first walk and what a full queue drops of it,
  and the search itself, on `Driver.FileSystem`. `FindableRuns`, `SearchableVolumes`: where it may be called, and what
  making a directory does to the walk. `CrowdedVolumes`: a run after which the queue is too small.
- `Tokenizer`: `strtok` with its in-place NULs, `strchr`, `strcpy`, and `strcmp` of src/stdlib/string.c.

## Where the code and its documentation differ

The model follows the code.

- `delete` answers -1 for a name that is not there; its comment says 1 (src/fat32.c:448, 551).
- `delete` takes a directory for empty when slot 1 is free, whatever the later slots hold (src/fat32.c:475-491).
  `Emptiness.OccupiedDirectoryIsDeleted` gives a run in which a directory with a file in it is deleted, and
  `Emptiness.RefusalIsExact` says when the answer is the documented one. The tree invariant survives: the subtree becomes
  unreachable and its clusters stay allocated.
- Unlike write, delete is not crash-atomic: it zeroes the data before it writes the tables. `DeleteCrash.DeleteCrashIsExact`
  says after which sectors a crash shows the state before or after, `DeleteCrash.DeleteLosesBytes` gives a run in which it
  shows neither, and `DeleteCrash.DeleteCrashIsContained` that nothing but the deleted entry is ever affected.
- A delete that loses power between the allocation table and the parent's table leaves an entry whose clusters are free.
  The next write may take them, and the entry then shows the data of the new file (`StaleEntries.StaleEntryShows` says
  exactly when).
- A format stores the signature first, and a signed disk is never formatted again: power loss at one of the sectors 1 to
  5 leaves a blank disk unusable (`FormatCrash.FormatCrashIsExact`).
- Creating a directory ignores the extension of the request, deleting does not: a directory made with an extension cannot
  be deleted by the same request (`Deleting.DirectoryExtensionIsDropped`).
- `read_directory` also looks at slot 0, so a directory named like the one it is entered in is found there first, and the
  answer is the table of the directory above (`Guarantees.NewDirectoryIsRead`).
- `read` answers 0 when the chain has at least `floor(size / 2048)` clusters, even if that is less than what was asked
  for, 3 otherwise, and never 2 (`Guarantees.ReadingAnswers`).
- The memory check of process creation is given a number of pages where it expects bytes: it asks for one free frame
  (src/process.c:68-69). One size, 0xFFC00000, makes the sum wrap to zero and asks for none
  (`Processes.MemoryCheckMeans`).
- The number of pages is computed in single precision, which loses a few bytes above 16 MiB: a program of 28 MiB and two
  bytes is taken for seven pages (`Rounding.PageCountIs`, `Rounding.TooLargeIs`).
- Whatever its size, a process gets one page for the program and one for the stack, the two lowest free frames; when
  only one or none is left the page is missing and the creation still succeeds (`NewProcesses.CreationStarts`).
- `paging_free_page_directory` returns after the first turn of its loop, so only directory 0 is ever released, and
  `process_destroy` releases no frames: from boot at most 16 creations succeed, those with the wrapping size not counted
  (`KernelRuns.AtMostSixteenCreations`).
- `process_destroy(0)` may pick a control block that was never used, because that also carries pid 0
  (`KernelRuns.DestroyZeroIsExact`; `KernelRuns.DestroyZeroFails` gives a run).
- Because no directory but the first is released, creations of the wrapping size can use all 32 up, and the next one gets
  past the checks without a directory (`KernelRuns.CreateKeeps`; `KernelCases.DirectoriesRunOut` gives a run).
- Directory 0 is cleared with its process even while it is in CR3, and then maps nothing, the kernel neither
  (`KernelMapping.LoadedStaysUsed`; `KernelCases.DestructionUnmapsKernel` gives a run). The next tick loads another one.
- The interrupt entry recognises a user program by the privilege bits of `ds` rather than of `cs`
  (`Interrupt.ResumeOfSave` and `KernelRuns.PreemptionIsTransparent` say exactly when that matters).
- When no process is running, as after the running one has destroyed itself, the scheduler starts its search at process
  0: a program that destroys and creates its own process again keeps all later ones from ever running
  (`Waiting.StarvationFromBoot`); otherwise nobody waits for sixteen ticks (`Waiting.WaitingIsBounded`).
- The queue of `find` holds 20 directories and drops the next one silently: the search is complete exactly when it never
  overflows (`Find.BfsFind`), as with no more than 20 directories (`Levels.SmallTreesFit`) and not with 22 in the root
  (`CrowdedVolumes.QueueOverflows`).
- `strcmp` answers 0 when its first argument is a non-empty beginning of the second, so `find` also prints entries whose
  name is a proper beginning of the target (`Tokenizer.Strcmp`, `Find.MatchesArePrinted`). A name of eight bytes runs on
  into the extension that lies behind it in memory. The count of matches is an 8-bit number: the message that nothing was
  found is printed when it is a multiple of 256 (`Find.BfsFind`).
- `find` looks a directory up under its own name cut at the NUL. One whose name has bytes behind the NUL is looked for in
  vain - "Error reading directory" - and nothing in it is searched, until a directory with the cut name is made beside it
  (`Find.OwnEntryIsFound`, `SearchableVolumes.MakingDirectoriesKeepsSearchable`; `SearchableVolumes.HiddenDirectory` gives
  a run).
- The shell's call of `strtok` passes a one-character delimiter array without a NUL (src/user-shell.c:1392), so whatever
  lies behind it up to the next NUL counts as delimiters too; the theorems are about any string of delimiters that is
  found there.

## Preconditions the code forces

- `write` is defined (`Volumes.WriteDefined`) when the parent's table has a free slot (the search of
  src/fat32.c:353-360 can run off the table), the size is at most 255 clusters (the count is an 8-bit number), and the
  buffer holds the file. The theorems about `write` also ask for the parent to be a directory of the tree; the code does
  not check that.
- `read` needs a buffer rounded up to whole clusters. The table of a new directory, an uninitialised local of `write`
  (src/fat32.c:391), starts out zero.
- Timer interrupts arrive in user mode only, since the handlers are interrupt gates.
- The page directories lie in the kernel's part of the address space, page aligned (`Paging.Placed`).
- `find` needs a walk less than 16 deep, and names that end within their entry (`Find.Searchable`): both bound what it
  writes into arrays of the shell. After any run of the driver the names are in order (`FindableRuns.RunsAreFindable`).
  Its target is not empty, because the shell takes it from `strtok`.

These hypotheses are met by concrete states: `Emptiness.OccupiedDirectoryIsDeleted` goes through successful writes and
deletes on a formatted disk, `SearchableVolumes.ThreeDirectories` makes a tree to search, and `KernelRuns.BootIsOk` starts
the runs of the kernel.

## Model

| member | source | states |
|---|---|---|
| Directory.DecodeTableOfEncode | src/header/filesystem/fat32.h:77-100 | a directory table written to a cluster is read back unchanged |
| Directory.EncodeTableOfDecode | src/header/filesystem/fat32.h:77-100 | the table view of a cluster holds every one of its bits |
| Directory.EntryLayout | src/header/filesystem/fat32.h:77-100 | which of the 32 bytes of an entry is what, lowest byte first |
| Fat.DecodeMapOfEncode | src/header/filesystem/fat32.h:52-55 | the allocation table written to cluster 1 is read back unchanged |
| Fat.EncodeMapOfDecode | src/header/filesystem/fat32.h:52-55 | the table view of a cluster holds every one of its bits |
| Fat.MapLayout | src/header/filesystem/fat32.h:52-55 | word i of the table lies at byte 4 i, lowest byte first |
| Fat.ChainShape | src/fat32.c:517-524 | a chain that can be walked starts where asked, ascends strictly, and each of its words names the next cluster or ends the file |
| Fat.FirstFreeShape | src/fat32.c:402-414 | the search takes free clusters only, ascending, and leaves no lower free cluster behind |
| Fat.FirstFreeCount | src/fat32.c:406-419 | the search finds as many clusters as asked for, or all the free ones there are |
| Fat.ChainOfLink | src/fat32.c:422-433 | linking ascending clusters makes them one chain in that order |
| Fat.ClearOfLink | src/fat32.c:517-524 | clearing what was linked restores the whole table |
| Fat.FreeAfterLink | src/fat32.c:422-433 | linking free clusters takes exactly these off the free set |
| Fat.FreeAfterClear | src/fat32.c:517-524 | clearing a chain gives exactly its clusters back |
| Tree.TreeFrame | src/fat32.c:389-443 | nothing that happens outside the live clusters can break the tree |
| Tree.EnterKeepsTree | src/fat32.c:353-441 | entering a fresh name for an unowned chain keeps the tree a tree, new directories included |
| Tree.RemoveKeepsTree | src/fat32.c:466-546 | removing an entry keeps the tree a tree, even when a directory's subtree is cut off |
| Views.ParentLinksAgree | src/fat32.c:115-135 | slot 0 of a directory names the directory it is entered in, and following these links reaches the root after as many steps as the path is long |
| Views.PathIsUnique | src/fat32.c:378-397 | every directory is entered in exactly one slot of one directory |
| Views.DirectoriesAreReachable | src/fat32.c:115-135 | the directories of the invariant are exactly those reachable from the root |
| Views.ViewFrame | src/fat32.c:325-443 | what a user sees depends on live clusters only, and no chain is ever seen broken |
| Writing.WriteKeepsVolume | src/fat32.c:325-443 | a write that fits succeeds and leaves a well-formed volume with one more entry |
| Writing.FreeClustersDoNotShow | src/fat32.c:389-440 | data and chains laid on free clusters change nothing a user sees, before the parent table is written |
| Writing.FirstFitTakesLowest | src/fat32.c:402-432 | what is taken lies below everything that stays free |
| Writing.AllocationIsExact | src/fat32.c:378-432 | with a fresh name write fails exactly when too few clusters are free, then changes and writes nothing; otherwise it takes the lowest free clusters, exactly as many as needed |
| Guarantees.ReadingAnswers | src/fat32.c:262-318 | for every size and chain length: read answers 0 exactly when the chain has floor(size/2048) clusters, 3 otherwise and for a missing entry, never 2; and the buffer gets the first clusters of the chain |
| Guarantees.FileIsReadBack | src/fat32.c:262-443 | when write answers 0, read answers 0 and gives back exactly the bytes written, the last cluster padded with zeros, the rest of the buffer untouched |
| Guarantees.OtherReadsStay | src/fat32.c:262-443 | a successful write leaves the code and the bytes of every read that does not ask for the new entry as they were - with exactly one exception: reading the parent directory itself through its entry, as if it were a file |
| Guarantees.OtherFilesStay | src/fat32.c:262-443 | a successful write leaves the code and the bytes of reading every other file as they were |
| Guarantees.OtherTablesStay | src/fat32.c:389-441 | a successful write changes no directory table but the parent's |
| Guarantees.NewDirectoryIsRead | src/fat32.c:222-253 | read_directory of a new directory returns its fresh table, or the table above when the name is the enclosing directory's own |
| Guarantees.DeletingAnswers | src/fat32.c:451-552 | which of -1, 0 and 2 delete answers, from the parent's table and slot 1 of the directory to go; a refusal changes and writes nothing |
| Guarantees.DeletingFreesTheChain | src/fat32.c:511-524 | a successful delete zeroes and frees exactly the entry's chain: the free count rises by its length, and every other cluster but the tables keeps its contents |
| Guarantees.DeletingUndoesWriting | src/fat32.c:325-552 | writing and then deleting restores the allocation table and every cluster of the disk bit for bit, but for the clusters used, which are zero |
| Guarantees.WritingShows | src/fat32.c:325-443 | after a write its path shows the new file's bytes or the new folder, nothing is below it, and every other path shows what it showed |
| Guarantees.DeletingShows | src/fat32.c:451-548 | after a delete nothing is seen at its path or below, and every other path shows what it showed |
| Replies.WritingIsDefined | src/fat32.c:340-403 | where write stays inside its arrays: a free slot in the parent, no more clusters than an 8-bit number counts, a buffer that holds the file |
| Replies.WritingAnswers | src/fat32.c:325-443 | the answer of write to every request on any volume: -1 without a name, 2 below cluster 2, 1 when a slot from 1 on has the name or fewer clusters are free than needed, else 0; a refusal changes and writes nothing |
| Replies.WritingStores | src/fat32.c:434-442 | a successful write stores the 32 bytes of the new entry in the first free slot of the parent's cluster, naming the lowest free cluster, and no other byte of it changes |
| Replies.ReadingRefuses | src/fat32.c:262-272 | read answers -1 exactly without a name and 1 exactly with a name and size 0, and then leaves the buffer |
| Replies.ReadingCopies | src/fat32.c:276-322 | read copies the first clusters of the file, as many as the size takes or the file has, in order, and nothing else |
| Replies.ReadingDirectoryAnswers | src/fat32.c:222-254 | read_directory gives the cluster of the first entry with the name if that is a folder, answers 1 if it is a file and 2 if there is none, and then leaves the buffer |
| Replies.NoNameIsRefused | src/fat32.c:224-227 | without a name read_directory and delete answer -1 and do nothing |
| Replies.WrittenIsListed | src/fat32.c:222-254 | after a successful write, read_directory of the directory written to, through its own entry, gives its bytes with the new entry's 32 in the first free slot |
| Replies.FormatStores | src/fat32.c:154-166 | the bytes a format leaves in the first three clusters, all other clusters as they were |
| Deleting.DeleteKeepsVolume | src/fat32.c:466-548 | deleting keeps the volume well formed |
| Deleting.DirectoryExtensionIsDropped | src/fat32.c:377-436 | a new directory can be deleted by its own request exactly when the request has no extension |
| Emptiness.RefusalIsExact | src/fat32.c:468-491 | delete refuses a directory exactly when its slot 1 is in use; that is the documented answer if and only if slot 1 is in use or the directory is empty |
| Emptiness.OccupiedDirectoryIsDeleted | src/fat32.c:475-491 | a run from a fresh volume after which a directory with a file in it is deleted successfully |
| Crash.PlayAll | src/disk.c:37-54 | the sector writes of a list of cluster writes, played in order, have the effect of the list |
| Crash.WriteIsCrashAtomic | src/fat32.c:389-442 | after every prefix of the sector writes of every write, mounting gives a well-formed volume without broken chains that shows what was there before or what is there after |
| DeleteCrash.DeleteCrashIsContained | src/fat32.c:499-546 | after every prefix of the sector writes of every delete, every path not through the deleted slot shows what it showed |
| DeleteCrash.DeleteCrashIsExact | src/fat32.c:499-546 | such a crash shows the state before or after the delete exactly when nothing is stored yet, or the slot's sector of the parent table is, or the entry is a file whose bytes zeroed so far were zero already and whose first table word is not stored yet |
| DeleteCrash.DeleteLosesBytes | src/fat32.c:511-520 | a one-byte file on a formatted disk: after the first sector of its deletion neither the state before nor the state after is shown |
| FormatCrash.FormatCrashIsExact | src/fat32.c:154-183 | after any sector of a format of a disk with a blank root cluster: the disk is signed and so mounted from then on, and what is mounted is well formed - and the formatted volume - exactly from the sixth sector on |
| StaleEntries.TakenWhenReached | src/fat32.c:405-414 | a free cluster is taken exactly when fewer free ones lie below it than are asked for, and it is taken after these |
| StaleEntries.StaleEntryShows | src/fat32.c:545-546 | after a delete of a file that lost power with the word cleared and the slot not, every successful write keeps the entry, and it shows the new data from its cluster on exactly when fewer clusters below that were free than needed, and dangles otherwise |
| Runs.FormatIsWellFormed | src/fat32.c:154-166 | formatting any disk, whatever table was cached before, gives a well-formed volume with an empty root |
| Runs.StepKeeps | src/fat32.c:154-552 | write, delete, mount and format keep a volume well formed, whether they succeed or fail |
| Runs.FormattedRunIsWellFormed | src/fat32.c:154-552 | every run of operations after a format ends in a well-formed volume whose cached table is the one on disk, so that mounting again changes nothing |
| Runs.SlotsAreSound | src/fat32.c:342-441 | a slot is all zero, or carries a name no other slot of the directory has and a chain from cluster 3 on that ascends to an end of file and has max(1, ceil(size/2048)) clusters |
| Runs.ChainsNeverCross | src/fat32.c:402-433 | a cluster lies in the chain of at most one slot of one directory |
| Device.BlockDevice.constructor | src/external-inserter.c:9-10 | a disk over a byte array, with nothing written yet |
| Device.BlockDevice.ReadBlocks | src/external-inserter.c:13-22 | the blocks asked for land in the buffer, the rest of the buffer keeps its contents |
| Device.BlockDevice.WriteBlocks | src/external-inserter.c:24-33 | the disk is the old disk with these sectors played over it, in order |
| Driver.FileSystem.constructor | src/fat32.c:8-8 | the driver state before mounting: static storage, all zero |
| Driver.FileSystem.WriteClusters | src/fat32.c:193-196 | one cluster gets the data, in four sector writes, and no other cluster changes |
| Driver.FileSystem.ReadClusters | src/fat32.c:205-208 | the cluster lands at the position asked for and nothing else in the buffer changes |
| Driver.FileSystem.InitDirectoryTable | src/fat32.c:115-135 | slot 0 becomes the directory's own entry naming its parent, the other slots stay |
| Driver.FileSystem.IsEmptyStorage | src/fat32.c:142-147 | storage is empty exactly when its first block is not the signature |
| Driver.FileSystem.CreateFat32 | src/fat32.c:154-166 | the volume becomes the formatted volume of the specification, an empty root, whatever the driver did before, and the nine sector writes are logged in order |
| Driver.FileSystem.Initialize | src/fat32.c:172-183 | a signed disk is mounted, any other is formatted |
| Driver.FileSystem.ReadDirectory | src/fat32.c:222-253 | code and buffer are those of the specification, and the disk is not written |
| Driver.FileSystem.FetchChain | src/fat32.c:282-301 | the copying loop ends and copies the first clusters of the chain, counting min(size, 2048 * length) bytes |
| Driver.FileSystem.Read | src/fat32.c:262-318 | code and buffer are those of the specification, and the disk is not written |
| Driver.FileSystem.FindFreeCluster | src/fat32.c:380-388 | the lowest free cluster, or 512 when there is none |
| Driver.FileSystem.CollectFreeClusters | src/fat32.c:402-414 | the lowest free clusters, ascending, as many as there are up to the number asked for |
| Driver.FileSystem.StoreFile | src/fat32.c:420-434 | the file's blocks go to the clusters in order, the last one padded, and the table links them |
| Driver.FileSystem.Write | src/fat32.c:325-443 | code, volume and the sequence of sector writes are those of the specification |
| Driver.FileSystem.FreeChain | src/fat32.c:511-524 | the walk ends, zeroes the chain's clusters in order and clears exactly their words |
| Driver.FileSystem.LooksEmpty | src/fat32.c:475-486 | the run of occupied slots is empty exactly when slot 1 is free |
| Driver.FileSystem.Delete | src/fat32.c:451-552 | code, volume and the sequence of sector writes are those of the specification |
| Paging.AllocateFrameIsolates | src/paging.c:65-96 | giving out a frame keeps the address spaces apart, also when no frame is left |
| Paging.CreateDirectoryIsolates | src/paging.c:128-160 | taking a page directory keeps the address spaces apart |
| Paging.FreeDirectoryIsolates | src/paging.c:162-184 | releasing a page directory keeps the address spaces apart, whatever address is given |
| Paging.FreeFrameIsolates | src/paging.c:98-117 | releasing a frame keeps the address spaces apart exactly when the address was mapped for the user |
| Paging.FreeUndoesAllocate | src/paging.c:65-117 | releasing what was just given out restores the paging state entirely |
| Paging.ProvideCounts | src/paging.c:65-160 | a new address space takes one directory that was free and two frames, or what is left of them, and changes no other directory |
| Paging.UseOfCurrent | src/paging.c:186-199 | reading CR3 and loading it again changes nothing exactly when CR3 lies above 0 and below one GiB, the physical addresses of the kernel's part |
| AddressSpaces.AllocationMaps | src/paging.c:32-96 | every address of the page, and of no other, then leads into the lowest free frame, at the same offset, for the user to read and write; without a free frame nothing changes |
| AddressSpaces.ReleaseUnmaps | src/paging.c:98-117 | no address of the page is mapped any more, all others as before, and the frame is free |
| AddressSpaces.NewDirectoryMaps | src/paging.c:128-160 | the first directory not in use maps the kernel's page, out of the user's reach, and nothing else |
| Paging.PageManager.constructor | src/paging.c:24-30 | at boot frame 0 is used and every other frame and every directory is free |
| Paging.PageManager.AllocateUserPageFrame | src/paging.c:65-96 | the state is that of the specification and the answer is true even when nothing was mapped |
| Paging.PageManager.FreeUserPageFrame | src/paging.c:98-117 | the state is that of the specification |
| Paging.PageManager.CreateNewPageDirectory | src/paging.c:128-160 | the first free directory's address, now in use with the kernel's entry, or NULL when there is none |
| Paging.PageManager.FreePageDirectory | src/paging.c:162-184 | only directory 0 is cleared and released; every other address changes nothing |
| Paging.PageManager.GetCurrentPageDirectory | src/paging.c:186-191 | the virtual address of the directory in CR3 |
| Paging.PageManager.UsePageDirectory | src/paging.c:193-199 | CR3 gets the directory's physical address and nothing else changes |
| Processes.CeilDivIsExact | src/process.c:25-29 | the single-precision quotient is the exact ceiling below 2^24, and zero only for zero |
| Rounding.FloatIsNearest | src/process.c:25-29 | the conversion gives the nearest multiple of the spacing, of two equally near the even one |
| Rounding.PageCountIs | src/process.c:25-29 | the page count of any sum is exact, or one too few exactly when the last page has at most half a spacing of bytes |
| Rounding.TooLargeIs | src/process.c:67-73 | the sizes refused as too large are exactly those above 28 MiB and two bytes and below the wrapping one |
| Processes.MemoryCheckMeans | src/process.c:67-73 | the memory check asks for one free frame, and for none at the one size whose sum wraps |
| Processes.ProcessManager.GetInactiveIndex | src/process.c:13-23 | the lowest inactive process number |
| Processes.ProcessManager.GetCurrentRunning | src/process.c:36-49 | the first running control block, 16 when there is none |
| Processes.ProcessManager.CreateUserProcess | src/process.c:51-125 | code and kernel state are those of the specification, CR3 as before |
| Processes.ProcessManager.ProcessDestroy | src/process.c:133-158 | answer and kernel state are those of the specification |
| Scheduler.SaveContextToCurrentRunningPcb | src/scheduler.c:18-24 | the context goes to the running control block, if there is one, and nowhere else |
| Scheduler.FindNextActive | src/scheduler.c:36-47 | the wrap-around search ends at the nearest active process going round |
| Scheduler.SwitchToNextProcess | src/scheduler.c:29-52 | kernel state after the switch, and the context handed to the restore |
| Scheduler.RoundCloses | src/scheduler.c:35-49 | as many switches as there are active processes go round the table exactly once |
| Scheduler.RoundRobinIsFair | src/scheduler.c:35-49 | with a fixed active set of k, any k consecutive turns run each active process exactly once and no other |
| Interrupt.ContextLayout | src/header/cpu/interrupt.h:117-138 | which word of the argument of process_context_switch is which register |
| Interrupt.ResumeOfSave | src/interrupt.c:429-443 | saving at interrupt entry and restoring gives back every register exactly when ds has privilege bits or the stack pointers agree |
| Interrupt.Processor.Interrupted | src/intsetup.s:5-50 | entry leaves the nineteen words of the interrupt frame on the kernel stack, lowest address first |
| Interrupt.Processor.TakeContext | src/interrupt.c:430-436 | the context taken is the one laid out by the frame |
| Interrupt.Processor.ProcessContextSwitch | src/scheduler.s:5-37 | the registers become exactly those of the context, in user mode |
| Interrupt.Processor.InterruptAndReturn | src/intsetup.s:5-70 | an interrupt whose handler returns is invisible to the program it interrupted |
| KernelRuns.TimerTick | src/interrupt.c:429-443 | the timer branch, carried out word by word on stack and registers, takes the machine where the transition system says |
| KernelRuns.BootIsOk | src/paging.c:24-30 | the invariant holds at boot with one frame used |
| KernelRuns.CreateCodeIs | src/process.c:51-89 | in every run, for every size: the answer depends on the process count, the entry point, the frames and the size alone; the branch without a page directory is never taken, but for the one size whose sum wraps |
| KernelRuns.RefusedCreation | src/process.c:54-89 | a creation that is refused changes nothing, but for the one without a directory, whose slot stays taken |
| NewProcesses.CreationAnswers | src/process.c:51-89 | the answer of a creation in any state of any run, for every entry point and size: 1, 2, 3 or 0 by slots, address, size, free frames and, for the wrapping size, directories |
| NewProcesses.CreationStarts | src/process.c:75-125 | after a creation in any state of any run the first free slot holds a ready process that starts at the entry point with an empty stack, user segments and interrupts on; its directory, the first free one, maps the kernel, the page of the entry point and that of the stack to the lowest free frames and nothing else; no other block, directory or frame changes |
| NewProcesses.FirstTurn | src/process.c:107-119 | whatever happens elsewhere, the first tick that chooses the new process goes on at its entry point in user mode, with its stack, segments and directory |
| NewProcesses.DestructionIs | src/process.c:133-158 | the answer and every field after a destruction: pid given up, the last block with it ready, the first directory cleared exactly when it was that block's, no frame released |
| KernelRuns.CreateKeeps | src/process.c:75-125 | for every entry point and size, with or without an active running process, a creation keeps the page directories right exactly when it does not get past the checks without one; a success uses two more frames, or what is left, a refusal none |
| KernelRuns.DestroyKeeps | src/process.c:133-158 | destroying any pid keeps page directories and CR3 right, and the running process active exactly when it is not the running process 0 with some control block never used; it releases no frame |
| KernelRuns.SwitchKeeps | src/scheduler.c:29-52 | whatever has happened before, exactly the chosen process is running after a switch and it is active; with the directories right its own is in CR3 and the kernel is sound |
| KernelRuns.TickKeeps | src/interrupt.c:429-443 | whatever has happened before, a tick leaves exactly one process running, an active one, and changes nothing of paging but CR3; it makes a kernel sound again in which process 0 had missed itself |
| KernelRuns.OneProcessRuns | src/scheduler.c:29-52 | in every run from boot, whatever is created and destroyed, at most one process is running, and after a tick exactly the nearest active one is |
| KernelRuns.NextKeeps | src/process.c:51-158 | exactly the possible events keep the page directories right, and a sound machine sound unless process 0 misses itself; every tick makes it sound |
| KernelRuns.RunKeeps | src/process.c:51-158 | every possible run can be executed and keeps the page directories right, and after a last tick the machine is sound |
| KernelRuns.RunIsAccounted | src/process.c:54-158 | in every run, any pid destroyed and any size asked for, the number of used frames tells how many creations have succeeded, and no more directories are in use than that |
| KernelRuns.AtMostSixteenCreations | src/process.c:54-89 | in every run from boot, whatever pid is destroyed: the active and free counts are those of the flags, n successes have used 2n + 1 frames or all, the directories in use exceed neither the successes nor the frames, and at most 16 creations succeed, those with the wrapping size not counted |
| KernelRuns.PreemptionIsTransparent | src/scheduler.c:18-52 | in any state of any run, and whatever else is created, destroyed and run in between: a preempted process goes on with all its registers exactly when ds has privilege bits or the stack pointers agree, with its CR3 exactly when that is below one GiB, as it is unless a creation has missed a directory, and then with its page directory too |
| KernelRuns.SoleProcessContinues | src/scheduler.c:29-52 | in any state of any run a process chosen again at once goes on with all its registers exactly when ds has privilege bits or the stack pointers agree, and with the paging as it was exactly when CR3 is below one GiB |
| KernelRuns.SlicesTakeTurns | src/scheduler.c:35-49 | from any state of any run, over any number of slices the running process is the one whose turn it is |
| KernelRuns.EveryProcessGetsItsSlice | src/scheduler.c:35-49 | in k consecutive slices of the whole machine each of the k active processes runs exactly once, and then the first is running again |
| Waiting.WaitingIsBounded | src/scheduler.c:29-52 | in any run, whatever is created and destroyed between the ticks: while each tick finds a process running and none chooses p, there are fewer ticks than places from the running process to p, at most 15 |
| Waiting.OthersStarve | src/scheduler.c:29-52 | a program of process 1 that keeps destroying and creating its process lets any number of ticks pass that choose neither process 0 nor 2, both active |
| Waiting.StarvationFromBoot | src/scheduler.c:31-33 | such a run begins at boot, for any number of ticks |
| KernelRuns.DestroyZeroIsExact | src/process.c:143-153 | destroying an active process 0 leaves a sound kernel exactly when it is not running or every other control block has been used, and always one that the next tick repairs |
| KernelRuns.DestroyZeroFails | src/process.c:143-153 | a run from boot, one creation and one tick, after which the running process 0 destroys itself and stays marked running |
| KernelRuns.IsolationInEveryRun | src/paging.c:65-184 | in every run from boot, any pid destroyed and any size asked for, no two user entries map the same frame, every mapped frame is marked used, frame 0 is nobody's and unused directories are clear |
| KernelMapping.NextMapsKernel | src/paging.c:128-184 | every event leaves exactly the directories in use with the kernel's entry |
| KernelMapping.LoadedStaysUsed | src/process.c:144-157 | the directory in CR3 stays one in use exactly until a process that owns directory 0 is destroyed while that is loaded, and every tick loads one in use |
| KernelMapping.KernelStaysMapped | src/paging.c:128-184 | in every run from boot the directories in use, and no others, map the kernel; in every possible run that never takes the loaded directory out of use, so does a listed directory in CR3 |
| KernelCases.DirectoriesRunOut | src/process.c:68-89 | a run of the machine - process 0 is created and switched to, and then creates process 1 and destroys it thirty times - after one more creation of which the next gets past the checks and finds no directory |
| KernelCases.DestructionUnmapsKernel | src/process.c:144-157 | a run from boot in which the running process 0 is destroyed and the directory in CR3 is cleared |
| PendingQueue.RingGrows | src/user-shell.c:62-87 | one step of rear appends one item to what lies between front and rear, round the end too |
| PendingQueue.RingShrinks | src/user-shell.c:89-127 | one step of front takes the first item off |
| PendingQueue.Queue.constructor | src/user-shell.c:56-60 | the queue starts empty |
| PendingQueue.Queue.Enqueue | src/user-shell.c:62-87 | the item comes last, its ninth name byte set to NUL; a queue of twenty drops it |
| PendingQueue.Queue.Dequeue | src/user-shell.c:89-127 | first in, first out; an empty queue gives an item without name and cluster |
| PendingQueue.Queue.IsEmpty | src/user-shell.c:129-132 | true exactly when nothing is pending |
| Find.OwnEntryIsFound | src/user-shell.c:453-463 | the root, and every directory whose name has nothing behind its NUL, is found by read_directory under its own name in its parent |
| Find.ReadingOpens | src/user-shell.c:453-463 | the request built for a directory is always defined, and answered with 0 exactly when the first slot of the parent with the name cut at the NUL holds a directory |
| Find.FetchTable | src/user-shell.c:452-463 | the code tells whether the directory opens, and the table is the directory's in any case |
| Find.ScanTable | src/user-shell.c:466-523 | the inner loop appends the subdirectories in slot order, as many as the queue holds, and finds a line for each match |
| Find.BfsFind | src/user-shell.c:434-543 | the walk ends, visits directories that can be walked to, each once, complains exactly if one of them cannot be read, and prints exactly the lines of the others; it takes all of them, level by level in slot order, exactly when the queue never overflows |
| Levels.WalkIsComplete | src/user-shell.c:449-536 | the order by levels holds every directory reachable without root slot 1 through directories that can be read exactly once, nearer ones first |
| Levels.TrackStep | src/user-shell.c:62-67 | one turn of the walk keeps it on the order of the levels, or has lost a directory for good |
| Levels.SmallTreesFit | src/user-shell.c:28-28 | the queue cannot overflow while there are no more than twenty directories to visit |
| CrowdedVolumes.QueueOverflows | src/user-shell.c:62-67 | a run of the driver that makes twenty-two directories in the root, after which the queue overflows |
| SearchableVolumes.FreshVolumeIsSearchable | src/fat32.c:154-166 | a freshly formatted volume meets everything the search asks for |
| FindableRuns.RunsAreFindable | src/user-shell.c:434-543 | after any run of the driver from a format, whatever names it has used, the only thing the search asks for is a walk less than sixteen deep |
| SearchableVolumes.OpensAfter | src/fat32.c:222-254 | making a directory closes none, and opens exactly those beside it that were looked for under its name in vain |
| SearchableVolumes.MakingDirectoriesKeepsSearchable | src/user-shell.c:219-239 | making a directory less than sixteen deep, under any name, loses nothing of the walk and adds itself when the one above can be read; it adds no other exactly when it reveals none, and then the volume stays searchable |
| SearchableVolumes.ThreeDirectories | src/user-shell.c:449-536 | a run that makes directories: the one in root slot 1 is passed over, the others are in the order of the walk, at their depths |
| SearchableVolumes.HiddenDirectory | src/user-shell.c:453-541 | a run that makes a directory find cannot read, whose subdirectory it never visits until a directory with the cut name is made beside it |
| Find.MatchesMeans | src/user-shell.c:499-499 | an entry matches exactly when its bytes, from the first on until they end with a NUL, are a non-empty beginning of the target |
| Find.MatchesArePrinted | src/user-shell.c:497-523 | a line is printed for a slot, anywhere in the tree, exactly when its directory is visited and can be read and its entry matches the target |
| Tokenizer.SpansAreMaximal | src/user-shell.c:162-176 | tokens are delimiter-free, as long as possible, and in order |
| Tokenizer.SpansCover | src/user-shell.c:162-176 | every character that is no delimiter lies in a token |
| Tokenizer.CutKeepsTokens | src/user-shell.c:177-181 | the NULs written in place leave every token intact and end it |
| Tokenizer.OneCall | src/user-shell.c:148-188 | one call finds the first token of what is left and leaves the rest to be found |
| Tokenizer.CustomStrchr | src/user-shell.c:135-147 | a position is returned exactly when the character occurs in the string, and it is there |
| Tokenizer.Tokens.Strtok | src/user-shell.c:148-188 | which token is returned, what is remembered, and the one byte that is overwritten |
| Tokenizer.Tokenize | src/user-shell.c:1390-1398 | calling until NULL, or until there are as many arguments as allowed, returns exactly the first maximal delimiter-free runs, in order, each readable in the buffer at the end; when that is all of them the buffer is cut up completely |
| Tokenizer.CustomStrcpy | src/user-shell.c:242-249 | the string and its NUL go over the front of the destination, the rest stays |
| Tokenizer.Strcmp | src/stdlib/string.c:54-68 | the answer is 0 exactly when the first string is a non-empty beginning of the second; for two empty ones, when what lies behind the terminator of the first is a beginning of what lies behind the other's |

## Left out

- ATA, PIC, PIT, CMOS, framebuffer, keyboard and descriptor tables: hardware plumbing. Of src/disk.c only the order of the sector writes is modelled.
- TLB flushes and the inline assembly: CR3 is one field.
- The raw cluster system calls as user actions, and the shell's `mv`, `cp`, `cd`, `cat`, `nano`: they bypass or only wrap the operations modelled here.
- The lines that `find` prints, and its reading of parent tables to build them: a line is modelled by the clusters on the way and the slot.
- Loading the program during process creation: a file system call whose result is ignored.
- Processes.ProcessManager.CreateUserProcess: process names and the memory fields of a control block are left out; they do not influence anything modelled.
- Processes.CeilDivIsExact: only the division by the page size, the one the kernel makes.
- Driver.FileSystem.FindFreeCluster: the search for a directory's cluster reads one word past the table before it looks at the index (src/fat32.c:381); the model looks at the index first.
- Find.BfsFind: a walk sixteen or more deep, and strings that do not end inside their entry, which the driver never makes, are outside the theorem, because the search then leaves its arrays.
- KernelRuns.TickKeeps: a tick needs some active process; without one the search of the scheduler does not end.
- Interrupt.Processor.InterruptAndReturn: the change that the `and` of the entry code makes to the flags is undone by `popf` and not followed; the handler itself changes no saved word.
- Blocked processes: no modelled step sets or reads that state.
