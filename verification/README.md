# xv6 in Dafny

A model of the core of an xv6 kernel for RISC-V, with proofs about it.  The kernel
is the teaching system with a lottery scheduler, lazily allocated user memory and a
guard on the first page.  The project covers its crash-safe storage stack, virtual
memory, scheduling and process lifecycle, and three user-visible algorithms: the heap
allocator, pipes and the `grep` matcher.

The files follow the kernel's own division:

| file | what it models |
|---|---|
| `RedoLog.dfy`, `GroupCommit.dfy` | the redo log: the disk and its crash states, and all interleavings of operations, commit, crashes and recovery |
| `Bcache.dfy` | the buffer cache with its doubly linked LRU list, reference counts and pins |
| `LogCache.dfy`, `LogDevice.dfy` | the code that drives the log, over the buffer cache: what it keeps true of pinned buffers, and what it writes |
| `FileBlocks.dfy`, `Files.dfy` | block allocation, inodes, file contents, and what one write puts into the log |
| `LinkCounts.dfy` | directories and link counts |
| `PageTable.dfy`, `Vm.dfy`, `AddressSpace.dfy`, `UserCopy.dfy` | physical pages, Sv39 page tables, user address spaces, copies between kernel and user memory |
| `Lcg.dfy`, `Lottery.dfy` | the random number generator and the lottery |
| `SleepLock.dfy`, `ExitWait.dfy` | sleep and wakeup, sleep-locks; fork, exit and wait |
| `Umalloc.dfy`, `Pipe.dfy`, `Grep.dfy` | the user heap, pipes, regular expressions |

Code that works in place is a class whose methods change its fields; a protocol
between processes is a state machine whose steps are the stretches of code between two
lock operations or two disk writes, with theorems over every run.  Ghost fields say
what the real ones stand for: which block or page is used for what, which blocks a heap
consists of, which history of writes a disk represents.

Several files keep their invariant folded (`Umalloc.Sound`, `LogCache.Guarded`,
`LogDevice.Backed`, `Bcache.Listed`, `Files.Progress`, and `Ok` in `PageTable`, `FileBlocks`
and `LinkCounts`): it is unfolded only for a state that a proof mentions with `Opened` or
`Shown`, so that a proof sees the parts of the invariant it asks for.

The central results, each for all inputs or all runs:

* **Crash atomicity** (`RedoLog.CrashAtomicity`, `GroupCommit.CrashSafety`): a crash
  between any two disk writes, followed by any number of interrupted recoveries and one
  that completes, leaves all blocks of a transaction or none; over whole runs the disk
  always stands for a prefix of the history that splits no operation.
* **The log over the buffer cache** (`LogDevice.Log`): the pinned buffers are at all times
  exactly those of the logged blocks and every other unreferenced buffer holds what the
  disk holds, so write_log finds the newest data; after a commit nothing is pinned and the
  cache equals the disk.  The writes of commit and recovery are exactly those of the crash
  theorems.  There are as many buffers as log blocks, so that a commit during which nobody
  else holds a buffer panics exactly when the log is full (`LogDevice.Log.Commit`, `LogDevice.FullLogPanics`).
* **Lottery fairness** (`Lcg.FullPeriod`, `Lottery.Fairness`): the generator visits all
  2^32 states, and a process with t of T tickets wins between t*floor(2^32/T) and
  t*ceil(2^32/T) of any 2^32 consecutive draws.
* **Page tables refine flat maps** (`Vm.Memory`): walking, mapping, unmapping, copying
  and freeing change exactly the virtual pages they name, failures are undone, and no
  physical page is ever used twice or lost (`PageTable.UsedOnce`,
  `PageTable.NothingLost`).  Growing, copying and page faults fail exactly when
  there are too few free pages.  After any sequence of eager and lazy sbrk, page faults,
  fork, exit and new images, the pages of a process lie between page 1 and its size, unless
  it has grown eagerly from size 0 (`AddressSpace.Processes.Run`), which does map page 0
  (`AddressSpace.PageZeroMapped`); copyout stores exactly the bytes
  given, in that process only, and copyin reads them back (`UserCopy.RoundTrip`), both
  succeeding exactly when the pages are there or can be brought in.
* **Files refine byte sequences** (`Files.FileSystem.Writei`): a write splices exactly
  the bytes it reports, also when the disk fills up; the bitmap is exactly the set of
  blocks in use; one chunk of a large write never logs more than ten blocks, and can need
  all ten.
* **No lost wakeup** (`SleepLock.NoLostWakeup`, `ExitWait.ExitAndWait`).
* **Link counts** (`LinkCounts.DirTree`): the constructor establishes that every link count
  is the number of references to the inode, and Create, Link, Unlink and Iput keep it,
  exactly as long as the directory they work in has not been unlinked.
* **The heap** (`Umalloc.Program`): over any sequence of malloc and free, the units owned
  are exactly the ranges that sbrk has returned, each unit lies in one block that is either
  free or in use, and blocks in use never overlap.  malloc turns to sbrk exactly when no run
  of unused units is long enough (`Umalloc.RoomIsRun`), and fails exactly when sbrk then has
  none.
* **Pipes** (`Pipe.StreamOrder`), **`grep`** (`Grep.Match`).

## Model

| member | source | states |
|---|---|---|
| Grep.Match | user/grep.c:72-82 | true exactly when some substring, anchored as `^` and `$` ask, is in the language of the pattern, for every pattern and text |
| Grep.MatchHere | user/grep.c:85-96 | true exactly when some prefix of the text is in the language; terminates with MatchStar |
| Grep.MatchStar | user/grep.c:99-106 | true exactly when a run of characters that `c` accepts is followed by a match of the rest |
| Grep.HereAtom | user/grep.c:93-94 | a single character or dot in front consumes exactly one character of a prefix match |
| Grep.HereStar | user/grep.c:89-90 | a starred character in front consumes some run; the language side of the greedy-free loop |
| Grep.HereEnd | user/grep.c:91-92 | a lone `$` matches only the empty rest |
| Grep.SomewhereIsHere | user/grep.c:75-81 | looking for a prefix match at every suffix finds exactly the matching substrings |
| Pipe.StreamOrder | kernel/pipe.c:76-134 | in every interleaving of writers, readers and closes, bytes delivered followed by bytes buffered are exactly the bytes stored, in order, and at most 512 are buffered |
| Pipe.EventKeepsOrder | kernel/pipe.c:76-134 | each single event keeps the stream: what was buffered and taken in equals what is given out and buffered after |
| Pipe.FillAfter | kernel/pipe.c:88-95 | full and empty are told apart by the 32-bit counters even when they wrap |
| Pipe.SlotOfUint | kernel/pipe.c:95 | a counter that wraps at 2^32 still indexes the ring by its unwrapped value |
| Pipe.Ring.constructor | kernel/pipe.c:22-44 | a new pipe is empty and open at both ends |
| Pipe.Ring.Close | kernel/pipe.c:58-74 | one end is closed; the pipe is freed exactly when both are |
| Pipe.Ring.Write | kernel/pipe.c:76-103 | the bytes it stored are a prefix of the request, appended in order; why it stopped determines the return value |
| Pipe.Ring.Read | kernel/pipe.c:105-134 | delivers the oldest bytes in order, up to the request, and reports how many |
| Lcg.FullPeriod | kernel/proc.c:20-27 | from any state, the 2^32 following states are all different, every 32-bit value occurs, and the sequence then repeats |
| Lcg.NoShortCycle | kernel/proc.c:20-27 | no fewer than 2^32 steps lead back to a state |
| Lcg.Period | kernel/proc.c:20-27 | 2^32 steps lead back to the start |
| Lcg.IterateIsAffine | kernel/proc.c:20-27 | 2^k steps multiply by one fixed number and add another, modulo 2^32 |
| Lcg.IterateShape | kernel/proc.c:20-27 | the multiplier of 2^k steps is 1 modulo 2^(k+2) and the increment an odd multiple of 2^k |
| Lottery.Fairness | kernel/proc.c:440-493 | with a fixed runnable set on one CPU, a process with t of T tickets wins between t*floor(2^32/T) and t*ceil(2^32/T) of any 2^32 consecutive draws, and at least one |
| Lottery.WinningDraws | kernel/proc.c:465-488 | the draws a process wins are exactly those whose value falls in its window of tickets |
| Lottery.TicksCountWins | kernel/proc.c:477 | after any number of turns the tick count has grown by the number of draws won |
| Lottery.OwnerIsUnique | kernel/proc.c:467-488 | each ticket value belongs to one process only |
| Lottery.Cpu.SetTickets | kernel/proc.c:714-725 | refuses fewer than one ticket and changes no other process |
| Lottery.Cpu.Yield | kernel/proc.c:522-531 | the process becomes runnable again and no other changes |
| Lottery.Cpu.CountTickets | kernel/proc.c:452-458 | the first pass adds up the tickets of runnable processes |
| Lottery.Cpu.FindWinner | kernel/proc.c:467-488 | the second pass always finds a process, the owner of the drawn ticket |
| Lottery.Cpu.Draw | kernel/proc.c:446-493 | one iteration: nothing without tickets; otherwise one generator step, and only the owner of the drawn ticket runs and is charged a tick |
| Lottery.TimeSlice | kernel/proc.c:446-493 | a draw followed by a yield is one turn of the abstract lottery |
| SleepLock.NoLostWakeup | kernel/sleeplock.c:21-41 | in every interleaving there is at most one holder, and whenever the sleep-lock and its spinlock are free nobody sleeps on it |
| SleepLock.ActionKeepsInv | kernel/proc.c:573-617 | every step of sleep, wakeup, acquire and release keeps the invariant behind it |
| SleepLock.FreeLockMakesProgress | kernel/sleeplock.c:21-41 | whenever the sleep-lock is free and some process wants it, some process can take a step |
| ExitWait.ExitAndWait | kernel/proc.c:273-431 | in every interleaving of fork, also failing, exit, wait, kill and sleeping elsewhere: with wait_lock free no process sleeps in kwait while a child is a zombie, parent pointers lead to live processes, each exited process is reaped at most once, and one not reaped is still a zombie |
| ExitWait.ActionKeepsInv | kernel/proc.c:273-431 | every single step keeps the invariant behind it |
| ExitWait.ReparentPair | kernel/proc.c:324-337 | giving children to init keeps who may sleep with an exited child: only init, while its wakeup is on the way |
| ExitWait.WakeParentPair | kernel/proc.c:369-375 | once wakeup has passed the parent, the parent is not going to sleep |
| ExitWait.ReapPair | kernel/proc.c:397-416 | freeing a zombie leaves no parent pointer to it and no second process with its pid |
| ExitWait.ActionKeepsHistory | kernel/proc.c:372-416 | the pids that have exited are those reaped, each once, and those of zombies |
| RedoLog.CrashAtomicity | kernel/log.c:179-204 | for a crash between any two block writes of commit and any chain of interrupted recoveries, the recovered home blocks are the old state or the old state with every logged block applied, and the header is empty |
| RedoLog.CommitIsAtomic | kernel/log.c:179-204 | every disk state during a commit stands for the old state before the header write and for the new one after |
| RedoLog.CommitPoint | kernel/log.c:198-199 | writing the header is what turns the old state into the new one |
| RedoLog.CommitCompletes | kernel/log.c:194-204 | a commit that runs to its end has installed every block and emptied the header |
| RedoLog.CrashKeepsLogical | kernel/log.c:66-84 | a crash anywhere in recovery leaves a disk that stands for the same state |
| RedoLog.RecoveryIsIdempotent | kernel/log.c:117-124 | any number of interrupted recoveries followed by a complete one give the state the disk stood for |
| RedoLog.PartialInstall | kernel/log.c:66-84 | having installed some of the logged blocks changes nothing about the state the disk stands for |
| LogCache.RewriteKeeps | kernel/bio.c:93-137 | a block rewritten through a buffer that was not in use keeps the pins and leaves every other unpinned buffer equal to the disk |
| LogCache.SettledBlock | kernel/log.c:215-236 | the cache and the disk agree on every block that is not logged |
| LogCache.LogNew | kernel/log.c:227-234 | logging a new block pins its buffer, which was not pinned; the pinned buffers are again exactly those of the logged blocks, and this one no longer counts as changed and not logged |
| LogCache.LogAgain | kernel/log.c:227-230 | on absorption the buffer in hand is the one pinned already, and counts as logged |
| LogCache.GotIsKempt | kernel/bio.c:59-103 | getting a buffer takes none that an operation has changed and not logged |
| LogCache.LetGo | kernel/bio.c:117-137 | a buffer that is unchanged or logged can be let go: whatever is neither pinned nor held changed is what the disk holds |
| LogCache.LogStep | kernel/log.c:183-190 | an iteration of write_log finds the home block in its pinned buffer and changes the log block, on disk and in the cache, and nothing else |
| LogCache.InstallStep | kernel/log.c:70-83 | an iteration of install_trans writes the log block home and takes off the pin exactly when it is not recovering |
| LogCache.RoomToCommit | kernel/bio.c:75-88 | with no users there is a buffer for one more block if and only if fewer blocks are logged than there are buffers |
| LogDevice.PinsAgree | kernel/log.c:179-204 | block by block, cache and disk agree outside the pinned blocks; with nothing pinned they are equal |
| LogDevice.Log.constructor | kernel/log.c:53-61 | the log over a cache in which nothing is pinned |
| LogDevice.Log.LogOne | kernel/log.c:183-190 | the log block gets the block as last modified in the cache, in one disk write; panics exactly when bget has no buffer for the log block |
| LogDevice.Log.WriteLog | kernel/log.c:179-192 | the trace of copying the logged blocks to the log area is exactly the modelled one, or a prefix of it if it panics; it does not panic while a buffer is free |
| LogDevice.Log.WriteHead | kernel/log.c:103-115 | one disk write puts count and block numbers into the header |
| LogDevice.Log.ReadHead | kernel/log.c:87-98 | the in-memory header becomes the one on disk |
| LogDevice.Log.InstallSlot | kernel/log.c:70-83 | one logged block is written home, and its buffer unpinned unless recovering |
| LogDevice.Log.InstallTrans | kernel/log.c:66-84 | copies every logged block home, one write each; afterwards nothing is pinned |
| LogDevice.Log.RecoverFromLog | kernel/log.c:117-124 | produces exactly the recovery trace and ends with the recovered disk, to which the cache is equal |
| LogDevice.Log.Commit | kernel/log.c:194-204 | produces exactly the commit trace; then the cached data is on disk, the log is empty, nothing is pinned and the cache equals the disk; with no users it panics if and only if every buffer is pinned, having written a prefix of the trace |
| LogDevice.Log.LogWrite | kernel/log.c:215-236 | logs and pins a block once however often it is written, and leaves the buffer pinned; refused on a full log or outside an operation |
| LogDevice.Log.Update | kernel/log.c:206-236 | bread, change, log_write, brelse, while other operations may hold changed buffers: the block is changed in the cache, the disk is not, and the invariant of pinned buffers holds again |
| LogDevice.Log.TryBegin | kernel/log.c:127-143 | admits an operation exactly when no commit runs and its reservation fits |
| LogDevice.Log.EndOp | kernel/log.c:147-176 | the last operation commits, and all its writes are then on disk |
| LogDevice.Initlog | kernel/log.c:53-63 | from any disk with a sensible header, an empty cache and recovery establish the invariant of the log, with the recovered disk |
| LogDevice.FullLogPanics | kernel/param.h:9-11 | three operations that log ten different blocks each fill the log and pin all NBUF buffers, and their commit panics |
| GroupCommit.CrashSafety | kernel/log.c:127-236 | at every moment of every run the disk stands for the durable prefix of the history, which contains each operation entirely or not at all |
| GroupCommit.QuietMeansDurable | kernel/log.c:147-204 | when nothing runs, the log is empty and the home blocks are the whole history |
| GroupCommit.NoOperationDuringCommit | kernel/log.c:127-176 | no log_write and no end_op happens during a commit or a recovery |
| GroupCommit.LogSpace | kernel/log.c:127-236 | logged block numbers are distinct, and with all unspent reservations they fit in the log, so that an operation within its reservation never meets a full log |
| GroupCommit.ActionKeepsInv | kernel/log.c:66-236 | every step, including a crash, keeps the invariant behind these |
| Bcache.InsertFront | kernel/bio.c:46-52 | linking a buffer behind the head gives a ring that visits every buffer once, in the new order |
| Bcache.Unlink | kernel/bio.c:127-128 | unlinking a buffer gives a ring without it, in the same order |
| Bcache.RecycleKeepsView | kernel/bio.c:75-86 | giving an unused buffer another block changes no block as seen through the cache |
| Bcache.FillKeepsView | kernel/bio.c:98-101 | reading a block into its buffer changes no block as seen through the cache |
| Bcache.ModifyChangesView | kernel/bio.c:93-103 | changing a buffer changes exactly its block as seen through the cache |
| Bcache.WriteKeepsView | kernel/bio.c:107-112 | writing a buffer back changes nothing that is seen through the cache |
| Bcache.DropReference | kernel/bio.c:117-151 | letting go of a reference keeps every unreferenced buffer equal to the disk if and only if it was not the last one or the buffer is clean |
| Bcache.Cache.constructor | kernel/bio.c:26-34 | before binit the cache shows the disk |
| Bcache.Cache.Binit | kernel/bio.c:37-53 | the list visits every buffer once |
| Bcache.Cache.Bget | kernel/bio.c:59-89 | one buffer per block: the existing one, or the least recently used one that nobody references; none exactly when there is neither |
| Bcache.Cache.Bread | kernel/bio.c:93-103 | the returned buffer holds the block as seen through the cache; a referenced buffer keeps its block and data |
| Bcache.Cache.Bwrite | kernel/bio.c:107-112 | the disk has the buffer's data, and what the cache shows is unchanged |
| Bcache.Cache.Brelse | kernel/bio.c:117-137 | the last release moves the buffer to the front of the list; no block changes; unreferenced buffers stay clean if and only if this one was or is still referenced |
| Bcache.Cache.Bpin | kernel/bio.c:140-144 | one more reference, by the log |
| Bcache.Cache.Bunpin | kernel/bio.c:147-151 | undoes a pin, with the same condition as brelse |
| Umalloc.Allocator.constructor | user/umalloc.c:21-22 | nothing is allocated and there is no free list yet |
| Umalloc.Allocator.FindSlot | user/umalloc.c:28-31 | the loop of free terminates at the free block after which the freed one belongs |
| Umalloc.Allocator.Free | user/umalloc.c:24-43 | the block leaves the set of blocks in use, its units lie in one free block, every other block in use keeps place and size, and the heap invariant holds |
| Umalloc.Allocator.Morecore | user/umalloc.c:46-60 | the units owned grow by exactly those that sbrk returned, which join the free list; it then has a block that is large enough; blocks in use are unchanged |
| Umalloc.Allocator.Malloc | user/umalloc.c:63-90 | hands out a block that was not in use, of exactly the units needed; all others keep place and size; the units owned grow by exactly what sbrk returned if no free block has room, and are as before otherwise; fails if and only if no free block has room and sbrk fails; the search terminates |
| Umalloc.Program | user/umalloc.c:24-90 | for any sequence of malloc and free, by the marks before and after each call: malloc hands out units obtained from sbrk that were in no block in use; it extends the heap, by exactly the range sbrk returns, if and only if no run of unused units is long enough, and fails if and only if sbrk then has none; free takes away that block alone; blocks in use never overlap. At the end the units owned are exactly those ranges, as many as these have together, each in one block, free or in use |
| Umalloc.RoomIsRun | user/umalloc.c:32-41 | the free list has room for a request if and only if enough unused units lie in a row, whichever frees and calls of sbrk they came from: no room is lost to fragments side by side |
| Umalloc.Conserved | user/umalloc.c:24-90 | every unit owned is in exactly one block, either free or in use, and the blocks have no other units |
| Umalloc.FreeIsSound | user/umalloc.c:32-42 | joining with neither, either or both neighbours keeps the free list ordered and the blocks a partition of the heap |
| Umalloc.LinkedIsFreed | user/umalloc.c:32-42 | the header writes of free have the effect of the matching case |
| Umalloc.InUseDisjoint | user/umalloc.c:63-90 | a block in use overlaps neither another block in use nor a free one |
| Umalloc.FreeBlocksApart | user/umalloc.c:32-41 | no two free blocks are adjacent |
| Umalloc.BlocksDisjoint | user/umalloc.c:63-90 | blocks, free or in use, do not overlap |
| Umalloc.RequestFits | user/umalloc.c:52-54 | morecore asks sbrk for exactly the memory it then uses if and only if the request is below 2^27 units |
| Umalloc.RequestOverflows | user/umalloc.c:52-54 | a request for which the argument of sbrk wraps to zero |
| PageTable.DecodeEncode | kernel/riscv.h:358-369 | an entry can be read back from its word; entries are records in all other proofs, none of which rests on this |
| PageTable.EncodeDecode | kernel/riscv.h:358-369 | a word can be rebuilt from the entry read from it, the page number starting at bit 10; likewise on its own |
| PageTable.OneSlot | kernel/vm.c:97-115 | two virtual pages, of one table or of two, have the same leaf entry exactly when they are the same page of the same table |
| PageTable.NeededAtMost | kernel/vm.c:97-115 | three free pages for each page are always enough to map it: the page and two table pages |
| PageTable.UserPage | kernel/vm.c:368 | storing into a user page keeps all trees and the use of every page |
| PageTable.WalkStep | kernel/vm.c:103-105 | the index at each level leads to the place of the next table page |
| PageTable.LinkKeepsOk | kernel/vm.c:108-111 | linking an empty table page keeps every flat map and the use of every other page |
| PageTable.MapKeepsOk | kernel/vm.c:167 | writing a free leaf slot keeps all trees agreeing with their flat maps |
| PageTable.UnmapKeepsOk | kernel/vm.c:206-210 | clearing a leaf slot does, too |
| PageTable.DropKeepsOk | kernel/vm.c:262-278 | a table without leaves can be freed without touching any other |
| PageTable.TakeFree | kernel/kalloc.c:68-82 | taking the first free page keeps the free list exactly the set of free pages, each once |
| PageTable.PutFree | kernel/kalloc.c:46-63 | giving back a page that is in use does, too |
| PageTable.UsedOnce | kernel/kalloc.c:46-82 | no page is used twice: not on the free list, in one table or in two |
| PageTable.NothingLost | kernel/kalloc.c:46-82 | a page that no kernel structure holds is free, a table page, or mapped |
| Vm.TouchesTwice | kernel/vm.c:145-323 | operations on one table compose: together they touch only that table and the pages named |
| Vm.Restored | kernel/vm.c:216-237 | unmapping what was mapped brings the user map back |
| Vm.Memory.Kfree | kernel/kalloc.c:46-63 | a page in use becomes the first free page |
| Vm.Memory.Kalloc | kernel/kalloc.c:68-82 | fails exactly when no page is free; otherwise hands out one free page |
| Vm.Memory.constructor | kernel/kalloc.c:26-40 | after kinit every page in range is free |
| Vm.Memory.Walk | kernel/vm.c:97-115 | finds the leaf slot of the page; allocating changes no mapping and fails exactly when there are fewer free pages than table pages missing; without a slot the page is not mapped |
| Vm.Memory.Walkaddr | kernel/vm.c:121-138 | the page behind an address, exactly when it is mapped for the user |
| Vm.Memory.Store | kernel/vm.c:368 | a store into a user page changes that page of that process and nothing else |
| Vm.Memory.Mappages | kernel/vm.c:145-174 | maps exactly the pages asked for, or a prefix of them when memory runs out; nothing else changes; a page that was mapped already is excluded |
| Vm.Memory.Uvmunmap | kernel/vm.c:192-212 | exactly the pages in range are unmapped, the pages behind them are free, everything else is as before |
| Vm.Memory.Uvmalloc | kernel/vm.c:216-240 | maps fresh zero pages for exactly the new range, or restores the user map, exactly when there are fewer free pages than pages and table pages needed |
| Vm.Memory.Uvmdealloc | kernel/vm.c:246-258 | unmaps and frees exactly the pages beyond the new size |
| Vm.Memory.Uvmcopy | kernel/vm.c:296-323 | the new table maps the same pages with equal rights and contents, from page 1 on; on failure, exactly when there are too few free pages, it has no user pages, and the old table is unchanged |
| Vm.Memory.Freewalk | kernel/vm.c:262-278 | frees exactly the table pages at and below the given one; the leaf panic is not reached |
| Vm.Memory.Uvmfree | kernel/vm.c:282-288 | every page of the table is free, and no other page has changed |
| Vm.Memory.Uvmcreate | kernel/vm.c:178-186 | an empty table made of one free page |
| Vm.Memory.ProcPagetable | kernel/proc.c:190-220 | a table with exactly the trampoline and trapframe, or everything as it was before, exactly when fewer than three pages are free; the second mapping cannot fail |
| Vm.Memory.ProcFreepagetable | kernel/proc.c:224-230 | every page of the table is free, the trapframe and trampoline are not touched |
| AddressSpace.Processes.Growproc | kernel/proc.c:250-269 | grows or shrinks by exactly the pages between the sizes, or changes nothing, exactly beyond the top or with too few free pages; page 0 stays unmapped unless a process of size 0 grows, and is mapped if that succeeds |
| AddressSpace.Processes.Sbrk | kernel/sysproc.c:40-66 | returns the old size; lazy growth changes only the size; eager growth and shrinking, by 0 too, as above |
| AddressSpace.Processes.Ismapped | kernel/vm.c:477-488 | whether the page is in the flat map |
| AddressSpace.Processes.Vmfault | kernel/vm.c:452-475 | maps a fresh zero page for an unmapped page from page 1 up to the size, refused exactly when there are too few free pages; never page 0 |
| AddressSpace.Processes.NewImage | kernel/exec.c:31-50 | a new image starts with size PGSIZE and page 0 unmapped; every other table and page is as before; fails exactly when fewer than three pages are free |
| AddressSpace.Processes.Fork | kernel/proc.c:279-288 | the child has the parent's size and a copy of each page from page 1 on; every other table and page, the parent's included, is as before; on failure, exactly when there are too few free pages, nothing has changed |
| AddressSpace.Processes.Exit | kernel/proc.c:169-175 | the table of a process is given back whole |
| AddressSpace.Processes.GrowFromZero | kernel/vm.c:225-226 | after a process has given all its memory back, eager growth maps page 0; with three free pages it succeeds |
| AddressSpace.PageZeroMapped | kernel/vm.c:225-226 | a run from a fresh machine at the end of which page 0 of a process is mapped |
| AddressSpace.Processes.Run | kernel/sysproc.c:40-66 | after any sequence of new images, eager and lazy sbrk, page faults, fork and exit on any processes, every process has user pages below its size only; one that before each of its eager growths had a size other than 0 has them from page 1 on; if no size reaches 0 that is every process |
| UserCopy.Copyout | kernel/vm.c:343-375 | exactly the first `done` bytes are stored, all of them if and only if it succeeds; nothing else that this or another process sees changes; it succeeds if and only if every page is mapped and writable or is unmapped from page 1 up to the size, and the free pages suffice to bring in all of the latter |
| UserCopy.Copyin | kernel/vm.c:381-403 | the bytes the program sees there, pages not yet mapped as zeros; what it sees does not change; it succeeds under the same condition, with pages mapped for the user in place of writable ones |
| UserCopy.RoundTrip | kernel/vm.c:343-403 | copyin after a successful copyout succeeds and returns the bytes stored; copyout succeeds exactly when every page is there or can be brought in |
| UserCopy.ServeStep | kernel/vm.c:348-373 | a range of pages can be served if and only if the first can, at its cost in free and table pages, and the rest can after it |
| UserCopy.FaultSeen | kernel/vm.c:453-475 | a page fault changes nothing that the program sees |
| UserCopy.OthersSeen | kernel/vm.c:343-403 | an operation on one address space changes nothing that another process sees |
| AddressSpace.SpaceAfter | kernel/vm.c:216-258 | user mappings stay below the size |
| FileBlocks.ReferredOnce | kernel/fs.c:405-476 | no block is referred to twice, from one file or two, and the bit of a block referred to is set |
| FileBlocks.UsedIsReferred | kernel/fs.c:66-106 | a block whose bit is set and that is neither metadata nor just being handed out is referred to by a file, at the place found |
| FileBlocks.BitsAreReferred | kernel/fs.c:66-106 | between operations a bit is set if and only if its block is metadata or some file refers to it |
| FileBlocks.DirectStep | kernel/fs.c:411-417 | giving a file a direct block keeps ownership and every file's contents |
| FileBlocks.IndirectStep | kernel/fs.c:423-428 | so does giving it an indirect block |
| FileBlocks.EntryStep | kernel/fs.c:429-437 | so does a new entry of the indirect block |
| FileBlocks.TruncatedOk | kernel/fs.c:448-476 | freeing all blocks of a file keeps ownership |
| FileBlocks.OtherFile | kernel/fs.c:405-562 | an operation on one file leaves every block of another where and as it was |
| Files.FileSystem.Balloc | kernel/fs.c:66-89 | the first free block, zeroed and marked, or 0 exactly when the disk is full |
| Files.FileSystem.Bfree | kernel/fs.c:92-106 | clears the bit of a block in use |
| Files.FileSystem.Bmap | kernel/fs.c:405-444 | the block that holds block bn, allocated if missing; contents of all files unchanged; 0 only when the disk is full; what it logs |
| Files.FileSystem.BmapIndirect | kernel/fs.c:420-441 | the same for blocks listed in the indirect block |
| Files.FileSystem.Itrunc | kernel/fs.c:448-476 | the file is empty, its blocks and no others are free; no free block is freed |
| Files.FileSystem.Readi | kernel/fs.c:494-522 | the requested slice of the contents, clipped to the size; changes nothing |
| Files.FileSystem.Writei | kernel/fs.c:528-562 | the contents are spliced with exactly the bytes reported, also when the disk fills up or a copy fails; no holes; only free blocks are taken; bound on what is logged |
| Files.FileSystem.WriteChunk | kernel/file.c:156-163 | one operation of filewrite logs at most MAXOPBLOCKS blocks |
| Files.FileSystem.Filewrite | kernel/file.c:144-172 | as many bytes as the offset moves are in the file, also on failure; success means all of them; no other file changes; it fails only if the offset is beyond the end, the file would be too large, a copy fails or the disk is full, and succeeds (with bytes to write) only without the first three |
| Files.FileSystem.FullChunk | kernel/file.c:149-154 | an unaligned chunk into the indirect range, with five free blocks spread over the bitmap, is written and logs exactly MAXOPBLOCKS blocks |
| Files.SpreadRun | kernel/file.c:149-154 | a file system and a chunk for which that happens |
| Files.ChunkBound | kernel/file.c:149-154 | for every offset the bound for one chunk is at most MAXOPBLOCKS, with equality for unaligned full chunks; four full blocks would exceed it |
| Files.TallyNext | kernel/fs.c:405-444 | what one more block adds to the blocks logged |
| Files.TenBlocks | kernel/file.c:149-154 | the ten distinct blocks of that chunk |
| Files.OtherContents | kernel/fs.c:405-562 | an operation on one file leaves the contents of every other unchanged |
| Files.SpliceBytes | kernel/fs.c:528-562 | blocks written one by one amount to one splice of the contents |
| LinkCounts.NewFileNeedsLinked | kernel/sysfile.c:245-302 | creating a file keeps the invariant if and only if the directory is still linked |
| LinkCounts.NewDirNeedsLinked | kernel/sysfile.c:245-302 | so does creating a directory |
| LinkCounts.NamedNeedsLinked | kernel/sysfile.c:123-170 | so does linking a file |
| LinkCounts.CreateInUnlinked | kernel/sysfile.c:188-302 | a directory is made, unlinked and then written to: the counts are wrong |
| LinkCounts.NamedStep | kernel/sysfile.c:142-158 | a new name for a file keeps the invariant |
| LinkCounts.UnnamedStep | kernel/sysfile.c:221-233 | removing a name of a file does |
| LinkCounts.RemovedStep | kernel/sysfile.c:216-233 | removing an empty directory does; its count was 1 and that of its parent at least 2 |
| LinkCounts.NewFileStep | kernel/sysfile.c:265-291 | a new file does |
| LinkCounts.NewDirStep | kernel/sysfile.c:265-291 | a new directory does |
| LinkCounts.OrphanStep | kernel/sysfile.c:294-301 | an inode left without links by a failed create does |
| LinkCounts.NamedIsLinked | kernel/sysfile.c:214-215 | an inode with a name has a count of at least 1 |
| LinkCounts.DirTree.constructor | kernel/sysfile.c:123-302 | a file system with only the root; every link count is the number of entries naming the inode other than "." and "..", plus the ".." entries of linked child directories, plus one for the root |
| LinkCounts.DirTree.Dirlookup | kernel/fs.c:574-598 | finds a slot with the name, or there is none |
| LinkCounts.DirTree.Dirlink | kernel/fs.c:602-629 | fails on a name that is taken; otherwise the first free slot, or a new one, gets the entry |
| LinkCounts.DirTree.Link | kernel/sysfile.c:123-170 | one more name and count for a file, exactly when it is no directory, the name is free and there is room, or nothing changes; the invariant is kept if and only if the directory is linked or nothing was done |
| LinkCounts.DirTree.Isdirempty | kernel/sysfile.c:173-186 | whether nothing but "." and ".." is left |
| LinkCounts.DirTree.Unlink | kernel/sysfile.c:188-242 | the name is gone and the counts are right, exactly when it was there and, for a directory, empty, or nothing changes; the panic for a count below 1 is not reached |
| LinkCounts.DirTree.Create | kernel/sysfile.c:245-302 | a new inode is named, an existing file is returned, or at most an inode without links is left, and when; the invariant is kept if and only if the directory is linked or nothing was made |
| LinkCounts.DirTree.Iput | kernel/fs.c:337-363 | an inode without links can be freed |

## Left out

- Device drivers, traps, the context switch, spinlocks and the boot code: spinlocks are taken as atomic, the disk as reads and writes of whole blocks.
- exec beyond the first size of an image, the console, formatted output, system-call dispatch and argument fetching, the shell and the other user programs: glue or easy properties.
- Path resolution (`namex`, `skipelem`): operations on directories are given the inodes that a path leads to.
- iget, ilock and the inode cache: files are operated on one at a time, and the inode in memory and the one on disk are one record.
- Files.FileSystem.Writei: a copy between kernel and user memory either succeeds or fails, as the environment decides, and a copy within one block changes nothing when it fails; copyout and copyin themselves are in `UserCopy.dfy`.
- The buffer locks: `Bcache.dfy` and `LogDevice.dfy` run one call after another, each with any number of buffers held by others. `GroupCommit.dfy`, which has all interleavings, sees the cache as one array holding every block; `LogDevice.PinsAgree` and the methods of `LogDevice.Log` show the real cache to be such an array.
- Bcache.Cache.Bunpin: requires a pin to take off, and Bcache.Cache.Brelse a user, where the code would count below zero or panic.
- LogDevice.Log.EndOp: the wakeup of waiting operations is not part of it. The last operation to end requires that no changed buffer is left unlogged, which is what having no other operation outstanding means.
- Files.FileSystem.FullChunk: needs five bitmap blocks; with FSSIZE at 2000 there is one, and the bound of ten is then not reached.
- Lottery.Fairness: one CPU and a fixed runnable set, since the generator's state has no lock and is shared by all CPUs; tick counts are unbounded integers.
- Pipe.Ring.Write: sleeping and waking are not part of the pipe model; a step that would sleep is a step that is not enabled. That a reader is woken after a write that fails half way is not claimed, and does not hold of the code.
- Pipe.Ring.Read: the same.
- Umalloc.Allocator.Malloc: requires that the size passed to sbrk fits a positive int; `RequestFits` gives the exact condition.
- Umalloc.Program: only blocks in use are freed; freeing anything else is skipped, as the code then links memory into the free list that is not its own.
- LogDevice.Log.LogWrite: a full log refuses also a block that is logged already, as the code tests for a full log first.
- PageTable.DecodeEncode: entries are records in the other proofs; the accessed and dirty bits that hardware may set are part of the flags that are copied.
- Vm.Memory.Mappages: excludes by precondition the calls that panic (misaligned addresses, a size of 0, a page that is mapped), a permission that grants nothing, which would make a leaf look like a pointer to a table page, and a range that crosses from user pages into the trapframe; no call in the kernel does either.
- Vm.Memory.Uvmunmap: without freeing, only the trampoline and trapframe pages can be unmapped, which is the only such use.
- Vm.Memory.Kalloc: the free list is a sequence, not pages linked through their first words.
- Vm.Memory.Kfree: the same.
- AddressSpace.Processes.Vmfault: the table passed in is that of the current process, as at both places in a running process; the trapframe page that allocproc takes is given to fork.
- AddressSpace.Processes.Fork: file descriptors, registers and the process table are not part of it.
- AddressSpace.Processes.Exit: the trapframe page that freeproc frees is not part of it.
- copyinstr: a copyin that stops at a zero byte, easy beside it.
- ExitWait.ExitAndWait: pids are unbounded integers, and sleeping elsewhere than in kwait is one step (sleep itself is in `SleepLock.dfy`).
- LinkCounts.DirTree.Create: operations run one after another, and counts are unbounded integers. A ".." entry that leads to a freed inode, on which ilock panics, makes it return no inode.
