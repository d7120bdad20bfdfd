# JackOS, modelled in Dafny

JackOS is a 32-bit teaching kernel. This project models the parts of it that are algorithms over
mutable state and proves what its comments promise of them: over every run of calls where the promise
is about runs, and with the exact condition where the code keeps the promise only sometimes.

| file | models |
|---|---|
| Bits.dfy, Bitmaps.dfy | what a bitmap scan promises, on bits, and bitmaps packed eight to a byte |
| Lists.dfy | the intrusive lists between two sentinels |
| Paging.dfy, SelfMap.dfy | page frames and page tables under `malloc_page` and `mfree_page`, and the self-map they are reached by |
| Heap.dfy, Memory.dfy | the seven-class arena allocator, and `sys_malloc` and `sys_free` on real pages |
| ForkSpace.dfy | fork's copy of an address space |
| Scheduler.dfy, Sync.dfy | the ready list and dispatch, and semaphores and mutexes as preemptible steps |
| Processes.dfy, Pipes.dfy | fork, exit, wait and adoption, and the reference count of a pipe over four files |
| Blocks.dfy, Files.dfy | where a file's bytes are, and `file_write`, `file_read`, `inode_release` |
| Slots.dfy, Directories.dfy | 24-byte entries in sectors, and a directory as a finite map |
| Paths.dfy, PathSearch.dfy | path parsing and cleaning, and search, getcwd and chdir on a directory tree |

An operation that changes state is a method of a class with the source's fields (or works on one); its
`ensures` ties the new state to a function of the old one, and the lemmas are about that function.
An `ASSERT` of the source on modelled state is an `assert` in the same place, a result that stands for
the stop, or, where only the caller can see to it, a precondition. Reading the model:

- A section with interrupts off is one step. In Sync.dfy the timer may come between any two steps, also
  between `sema_down` and the write of `holder`, and between the clearing of `holder` and `sema_up`.
- The disk is a map from sector number to 512 bytes, physical memory a map from frame number to 1024
  words, and `switch_to` a change of the current thread.
- Fields called history in a comment (`live`, `owner`, `depth`, `exited`, `collected`, `freed`) record the past;
  no branch of the code looks at them.
- `grant` in Heap.dfy is what `malloc_page` returns; Memory.dfy calls it and shows that it is what
  Heap.dfy asks for. The number of a new TCB in Processes.dfy, the slice of a new thread in
  Scheduler.dfy, `write_deny` and a page for a pipe in Pipes.dfy, and the one bit of memory behind a
  bitmap (`next`) are inputs. Console, clock and device are not there.

Where the code does something other than its comments say, the model follows the code:

- `bitmap_scan` for more than one bit also reads the bit behind the map
  (`Bits.FirstFitPastTheEnd` says exactly when that decides the result), and stops at an `ASSERT`
  on a full map where its comment promises -1.
- `file_write` compares a sector number with 12 where the block index is meant (fs/file.c:451), so a
  call from below block 12 to past it leaves a hole; every other call is right (`Files.FileWrite`, `Files.HoleAfterFirstWrite`). A file
  of exactly the size that the first test allows stops at the `ASSERT` of line 377.
- `file_read` fills its table only for some ranges (`Files.ReadIsRight` says exactly which); for others it
  reads sector 0 (`Files.BehindTheDirectBlocks`).
- `delete_dir_entry` stops counting at the entry it looks for, so it can drop a block that other entries
  are in (`Directories.DeleteIsRemove` says exactly when, `Directories.DropLosesTheOther` shows one), and then
  clears the bit of another sector (`Directories.DroppedBlockLeaks`).
- `search_file` stops at the first regular file, whatever follows it in the path, so cleaning `/f/..`
  changes what it resolves to (`PathSearch.CleaningKeepsMeaning` has the exact condition).
- `init_adopt_a_child` wakes nobody, so init can sleep over a zombie (`Processes.InitServedAfterExit`
  has the exact condition).
- A regular file shared by fork is closed for both by the first `close`, and a pipe that gets its
  slot has a wrong count from then on (`Pipes.CloseKeeps`, `Pipes.ExitKeeps`, `Pipes.SharedFileBreaksPipe`).
- `palloc` never returns NULL: the scan stops the kernel first. The leak of virtual pages in `malloc_page`
  is therefore not reached.

## Model

| member | source | states |
|---|---|---|
| Bitmaps.Bitmap.ScanTest | lib/kernel/bitmap.c:25-29 | the bit asked for, also the one behind the map |
| Bitmaps.Bitmap.Set | lib/kernel/bitmap.c:92-102 | exactly that bit changes, and no byte behind the map |
| Bitmaps.Bitmap.FindClear | lib/kernel/bitmap.c:43-57 | full exactly when every bit of the map is set; otherwise the first clear bit |
| Bitmaps.Bitmap.Scan | lib/kernel/bitmap.c:39-82 | on the bytes what Bits.ScanOf says on the bits: stops exactly on a full map; first fit in the map for one bit; first fit in the map and the bit behind it for more |
| Bitmaps.Bitmap.ScanRun | lib/kernel/bitmap.c:63-81 | the counting loop finds the first run of cnt clear bits, or that there is none, bit behind the map included |
| Bits.FirstFitPastTheEnd | lib/kernel/bitmap.c:63-79 | the scan is first fit in the map itself if and only if the map has a fitting run or none ends in the bit behind it |
| Bits.PastTheEndExample | lib/kernel/bitmap.c:63-79 | where it is not: one clear bit at the end of a full map and a clear bit behind it give a run of two |
| Bits.ScanMeans | lib/kernel/bitmap.c:39-82 | each answer of a scan as a condition on the map: a first fit in it, a run that ends behind it, none, or full |
| Bitmaps.SetBit | lib/kernel/bitmap.c:95-101 | masking one byte updates the sequence of bits at one place |
| Lists.InsertInto | lib/kernel/list.c:24-36 | links run both ways through the nodes with the new one in its place |
| Lists.RemoveFrom | lib/kernel/list.c:63-70 | links run both ways through the nodes without the removed one |
| Lists.List.InsertBefore | lib/kernel/list.c:24-36 | the sequence of elements with the new one at its place, links consistent |
| Lists.List.Push | lib/kernel/list.c:44-46 | the element in front of all others |
| Lists.List.Append | lib/kernel/list.c:54-56 | the element behind all others |
| Lists.List.Remove | lib/kernel/list.c:63-70 | the sequence without that element, which is on it no more |
| Lists.List.Pop | lib/kernel/list.c:79-83 | the first element, and the rest in order |
| Lists.List.Find | lib/kernel/list.c:93-101 | ends, and is true exactly for a listed element |
| Lists.List.Traversal | lib/kernel/list.c:111-121 | ends with the first element that the callback accepts, or NULL when it accepts none |
| Lists.List.Length | lib/kernel/list.c:129-137 | the number of elements |
| Lists.List.IsEmpty | lib/kernel/list.c:146-148 | true exactly when nothing is listed |
| Lists.PopPush | thread/sync.c:51-56 | a tag popped off one list and pushed on another: both change by that element only and every other disjoint list stays as it was |
| Heap.ArenaOfBlock | kernel/memory.c:687-689 | clearing the low 12 bits of a block's address gives its arena |
| Heap.ClassSizes | kernel/memory.c:653-665 | classes double from 16 to 1024 bytes, and an arena has as many blocks as fit behind its header |
| Heap.BlockGeometry | kernel/memory.c:674-676 | blocks of an arena follow each other without overlap and end inside its page |
| Heap.AllBlocks | kernel/memory.c:765-774 | cutting an arena up gives blocks_per_arena distinct blocks, and all of them |
| Heap.MallocKeeps | kernel/memory.c:701-787 | for pages that no arena holds the heap invariant holds again; the result was not out before and is now, with its size; NULL exactly for a bad size or when pages were needed and refused |
| Heap.MallocIs | kernel/memory.c:732-785 | field by field what a call changes: a new arena of the least number of pages; or the front block of the class list, its arena's counter one less; or the first block of a new arena whose other blocks make up the list, in address order |
| Heap.PagesWantedIs | kernel/memory.c:732-762 | the pages a call asks for: above 1024 bytes the least number that holds size and header; otherwise one, and only when the smallest fitting class has no free block |
| Heap.FreeKeeps | kernel/memory.c:795-842 | the heap invariant holds again and exactly that allocation is gone |
| Heap.FreeIs | kernel/memory.c:821-838 | field by field: the block goes to the end of its class list and the counter up by one; with the last of an arena all its blocks leave the list and the arena is gone; a large arena is gone at once |
| Heap.WithoutConcat | kernel/memory.c:831-835 | taking an arena's blocks off a list keeps the others in order |
| Heap.LiveIsSound | kernel/memory.c:701-787 | a live allocation has the bytes asked for, past the arena header and inside its pages, and overlaps no other; above 1024 bytes its arena has the least number of pages that holds it and the header, below it is a block of the smallest class that holds it |
| Heap.NothingLiveNothingHeld | kernel/memory.c:828-838 | when nothing is live no arena is held and every class list is empty |
| Heap.FreeUndoesMalloc | kernel/memory.c:701-842 | freeing what was just allocated restores the arenas and counters and leaves each class list with the same blocks |
| Heap.AppendBlocks | kernel/memory.c:770-774 | the loop appends the arena's blocks in address order, none of them listed before |
| Heap.RemoveBlocks | kernel/memory.c:831-835 | the loop finds every block of the arena on the list and takes exactly those off |
| Heap.MallocHolds | kernel/memory.c:732-776 | sys_malloc holds the pages it held before and those it was granted |
| Heap.FreeHolds | kernel/memory.c:821-838 | sys_free gives up the pages of an arena that is all free, and no others |
| Memory.GrantIsFresh | kernel/memory.c:554-581 | a first fit of clear bits in the virtual bitmap is a run of pages that no arena holds |
| Memory.AllocatedKeeps | kernel/memory.c:701-787 | a successful sys_malloc keeps heap invariant, page ownership and their agreement: the bits set are those of arenas and those set before the heap |
| Memory.FreedKeeps | kernel/memory.c:795-842 | so does sys_free |
| Memory.BackIsInUse | kernel/memory.c:821-838 | the pages that sys_free hands to mfree_page are all marked in the virtual bitmap |
| Memory.LiveIsMapped | kernel/memory.c:701-787 | every byte of a live allocation lies in a page that is marked and mapped to a frame given out |
| Memory.RunIsSafe | kernel/memory.c:653-842 | over every run of sys_malloc and sys_free: arenas, counters, class lists, bitmaps and page tables agree in each state, and pages and frames of others are left alone |
| Memory.HeapSafe | kernel/memory.c:653-842 | and so in each state live ranges are disjoint, free_cnt is the number of the arena's blocks on its class list and below the maximum, and every page of an arena is present |
| Memory.NothingLiveNothingChanged | kernel/memory.c:466-842 | at any point of a run where everything is freed again the virtual bitmap, the present entries and the frames in use are what they were at the start, but for frames that are page tables now |
| Memory.Allocator.constructor | kernel/memory.c:653-665 | the empty heap on given pages satisfies the joint invariant |
| Memory.Allocator.GetPages | kernel/memory.c:554-581 | malloc_page for this heap: pages exactly when it can allocate, and they are fresh |
| Memory.Allocator.FindClass | kernel/memory.c:751-754 | the smallest class that holds size bytes |
| Memory.Allocator.Split | kernel/memory.c:765-775 | the heap with one new arena, all its blocks at the end of the class list |
| Memory.Allocator.SysMalloc | kernel/memory.c:701-787 | above 1024 bytes: NULL exactly when no run of the least number n of pages with size + 12 <= 4096n fits, a block exactly when malloc_page can allocate n, and then an arena of n pages; below: a block at once when the smallest class has one free, otherwise exactly when one page can be had; NULL for 0 and for the size of the pool; arenas, counters and lists field by field, the joint invariant kept |
| Memory.Allocator.SysFree | kernel/memory.c:795-842 | the block at the end of its list or the whole arena gone, field by field, mfree_page called for the arena's pages when it is all free, the joint invariant kept, the ASSERT on K_HEAP_START met |
| SelfMap.PteAddrParts | kernel/memory.c:526-530 | pte_addr names directory entry 1023, then v's directory index as page, then v's table entry as offset |
| SelfMap.PdeAddrParts | kernel/memory.c:539-542 | pde_addr names entry 1023 twice, then v's directory entry as offset |
| SelfMap.PteAddrReaches | kernel/memory.c:526-530 | with the self-map, walking pte_addr(v) ends at v's page table entry if v has a page table, and faults otherwise, for every 32-bit v |
| SelfMap.PdeAddrReaches | kernel/memory.c:539-542 | with the self-map, walking pde_addr(v) ends at v's directory entry, whatever it holds |
| SelfMap.V2PIsWalk | kernel/memory.c:382-386 | addr_v2p agrees with the processor's walk wherever that succeeds, and answers exactly when v has a page table |
| SelfMap.EntryIsWhatIsReached | kernel/memory.c:526-530 | the entry that Paging.dfy reads and writes for a page is the word the processor reaches through pte_addr, and there is none exactly when that faults |
| SelfMap.NewDirectoryWalks | userprog/process.c:102-123 | a new directory maps itself, translates kernel addresses as the old one and maps nothing below |
| Paging.PutEntryIs | kernel/memory.c:270-277 | writing one page table entry changes the entry of that page and of no other |
| Paging.PutTableIs | kernel/memory.c:278-285 | a new zeroed page table changes no page's entry |
| Paging.TakeKeeps | kernel/memory.c:242-249 | a frame taken from a pool was nobody's; the ownership invariant holds with it set apart |
| Paging.GiveKeeps | kernel/memory.c:399-410 | a frame given back keeps the ownership invariant |
| Paging.TableKeeps | kernel/memory.c:278-285 | adding a page table keeps it |
| Paging.MapKeeps | kernel/memory.c:270-286 | mapping a page to a taken frame keeps it: every used frame has one owner, every mapped page a frame of its own |
| Paging.UnmapKeeps | kernel/memory.c:418-428 | clearing the present bit keeps it, the frame being nobody's mapping any more |
| Paging.Pager.Palloc | kernel/memory.c:242-249 | the first free frame of the right pool is marked and nothing else, or the pool is full |
| Paging.Pager.PageTableAdd | kernel/memory.c:260-287 | succeeds exactly when a table is there or a kernel frame is free for it; the entry was not in use; that page maps to the frame, present, writable and for users; all other pages, mapped contents and foreign frames stay |
| Paging.Pager.EnsureTable | kernel/memory.c:278-284 | succeeds in the same cases; afterwards the page has a table, no entry has changed, no used frame has become free and one kernel frame is gone for a new table |
| Paging.Pager.VaddrGet | kernel/memory.c:207-233 | pages exactly for a first fit before the end of user space, NULL exactly when no run fits; the run is marked and nothing else |
| Paging.Pager.MallocPage | kernel/memory.c:554-581 | pages exactly when the count is in range, the bitmap has a fitting run before the end of user space and enough frames are free, new page tables counted; then the first fitting run is marked, each of its pages mapped to a frame of its own, the ownership invariant, all entries outside the run and all foreign frames kept; NULL changes nothing |
| Paging.Pager.MapRun | kernel/memory.c:570-579 | the loop maps the run exactly when the free frames suffice for its pages and their new tables |
| Paging.Pager.UnmapOne | kernel/memory.c:485-496 | the frame of the page is free again, its entry differs in the present bit only, the rest is unchanged, the pool ASSERTs hold |
| Paging.Pager.MfreePage | kernel/memory.c:466-514 | exactly the run is unmapped and unmarked, the ownership invariant holds, the ASSERTs on the frames are met |
| Paging.SameUse | kernel/memory.c:399-581 | two states with the same mappings, between which only page tables were added, have the same used frames but for those tables |
| Paging.MallocThenFree | kernel/memory.c:466-581 | whenever malloc_page can allocate, it and then mfree_page restore the virtual bitmap, the set of present entries and the frame bitmaps, but for frames that now hold page tables |
| ForkSpace.ChildStarts | userprog/process.c:102-123 | the blank directory of a child satisfies the ownership invariant with everything of the parent as foreign frames |
| ForkSpace.CopyPage | userprog/fork.c:75-90 | succeeds exactly when frames are there for the page and its table; the child gets the page on a fresh frame with the parent's contents; no frame of the parent and no page copied before changes |
| ForkSpace.CopyBytes | userprog/fork.c:70-95 | the loops copy every page whose bit is set, skipping zero bytes, exactly when frames suffice for all of them |
| ForkSpace.CopyBodyStack3 | userprog/fork.c:60-96 | succeeds exactly with a free user frame for each marked page and a free kernel frame for each table over them; then every page of the parent's bitmap is in the child with equal contents and no other is, no frame is shared, and the parent's entries and contents are unchanged |
| Scheduler.WakeIdleKeeps | thread/thread.c:468-472 | an empty ready list at dispatch means idle is BLOCKED, so the ASSERTs of unblock and schedule hold |
| Scheduler.ScheduleKeeps | thread/thread.c:452-479 | schedule ends with one RUNNING thread, the current one, and every READY thread listed once |
| Scheduler.ScheduleIs | thread/thread.c:452-479 | field by field: a thread still RUNNING goes to the back, READY and with a whole slice; the front of the list, or idle if nobody is there, runs; every other thread and every slice stays |
| Scheduler.ApplyKeepsInv | thread/thread.c:384-479 | so does every operation that its callers may perform |
| Scheduler.SchedulerSafe | thread/thread.c:384-479 | and every run of them |
| Scheduler.BootInv | thread/thread.c:494-505 | the state after thread_init satisfies the invariant |
| Scheduler.ScheduleIsCalm | thread/thread.c:452-479 | scheduling changes nobody's status but who among the awake is RUNNING, and idle's |
| Scheduler.PlaceAfterRun | thread/thread.c:409-479 | while a READY thread at index k is not dispatched, calls of schedule are at most k plus the unblock pushes |
| Scheduler.TicksPerCall | device/timer.c:67-82 | delivered ticks are bounded by calls of schedule times the longest slice plus one |
| Scheduler.BoundedWaiting | thread/thread.c:421-479 | a READY thread at index k is dispatched within k+1+u calls of schedule and (k+1+u)(S+1) ticks, u counting pushes and S bounding slices |
| Scheduler.TicksAfterStep | device/timer.c:73-80 | a tick takes exactly one from the current thread, or gives it its slice back when none is left; no other step of any operation touches a thread's ticks or slice |
| Scheduler.PreemptedRunsItsSlice | thread/thread.c:458-462 | over every run, a thread preempted by the timer waits with its whole slice and, dispatched again, is preempted by the tick after time_slice further ones and by none before, unless it gives the processor up itself |
| Scheduler.StartedRunsItsSlice | thread/thread.c:336-351 | and so is a new thread after its first dispatch |
| Scheduler.Kernel.constructor | thread/thread.c:494-505 | main runs, init and idle are ready, and the invariant holds |
| Scheduler.Kernel.ThreadUnblock | thread/thread.c:409-425 | the thread is READY at the front of the list and nothing else changes, its ASSERTs hold |
| Scheduler.Kernel.DoSchedule | thread/thread.c:452-479 | the dispatch of ScheduleIs, this_tick of a preempted thread equal to its time_slice, with its ASSERTs, from any state its callers reach it in |
| Scheduler.Kernel.ThreadBlock | thread/thread.c:384-396 | the current thread sleeps with that status and another runs |
| Scheduler.Kernel.ThreadYield | thread/thread.c:432-440 | the current thread goes to the back of the list, where it was not, with the ticks it had |
| Scheduler.Kernel.ThreadStart | thread/thread.c:336-351 | the new thread is READY at the back with a whole slice, and nothing else changes |
| Scheduler.Kernel.ThreadExit | thread/thread.c:246-272 | in the scheduler a thread leaves for good, alone or collected by its parent; its pid and list entry are in Processes |
| Scheduler.Kernel.TimerHandler | device/timer.c:67-82 | with ticks left exactly one is charged to the current thread and nothing else changes; with none left, the dispatch of ScheduleIs |
| Sync.NextKeepsInv | thread/sync.c:23-110 | every step, in every interleaving, keeps the invariant that ties value, waiters, holder, holder_repeat_nr, thread places and the scheduler |
| Sync.LocksSafe | thread/sync.c:23-110 | in every state reached: at most one thread between leaving sema_down and finishing sema_up of a mutex, one exactly when value is 0; holder_repeat_nr the acquires still to balance; with value 1 and waiters some woken thread is runnable and about to re-test; a waiting tag is on no other list |
| Sync.FirstComeFirstWoken | thread/sync.c:27-56 | over every run of preemptible steps, the threads waiting at its start and then those that fall asleep in a semaphore are, in order, those woken from it and then those waiting at its end |
| Sync.SleepersAreWaiters | thread/sync.c:27-35 | the waiters list holds exactly the threads that are BLOCKED in sema_down of that semaphore, once each |
| Sync.TagsOnOneList | thread/sync.c:27-35 | a thread waiting for one semaphore is neither ready nor waiting for another |
| Sync.SomeoneStillComes | thread/sync.c:27-60 | no step loses the last woken thread that re-tests value |
| Sync.QueueStays | thread/sync.c:27-35 | waiters are asleep in this semaphore and listed once, after every step |
| Sync.LockUnderStep | thread/sync.c:80-110 | one step of a thread at a mutex keeps what the owner's position says of its fields |
| Sync.AcquireTakes | thread/sync.c:80-86 | three steps of mutex_acquire on a free mutex end outside with value 0, the caller as holder and a count of 1 |
| Sync.ReleaseGivesBack | thread/sync.c:98-109 | three steps of the balancing mutex_release end outside with value 1, no holder, a count of 0 and the first waiter off the list |
| Sync.HolderTakesAgain | thread/sync.c:80-104 | the holder acquires again in one step without testing value, and one step of the release undoes it |
| Sync.TakeUndoesRaise | thread/sync.c:23-60 | sema_up and then sema_down leave a semaphore without waiters as it was |
| Sync.FreshInv | thread/sync.c:68-72 | locks as initialised satisfy the invariant |
| Sync.Locks.SemaDown | thread/sync.c:23-39 | one pass of the loop: queued and blocked at value 0, otherwise through with value 0; its ASSERTs hold |
| Sync.Locks.Raise | thread/sync.c:50-58 | the first waiter is woken and value is 1 |
| Sync.Locks.SemaUp | thread/sync.c:47-60 | the step on a plain semaphore, with its ASSERTs |
| Sync.Locks.ReleaseUp | thread/sync.c:109 | the step at the end of mutex_release |
| Sync.Locks.MutexAcquire | thread/sync.c:80-81 | the holder goes to count up, anyone else to sema_down |
| Sync.Locks.AcquireWrite | thread/sync.c:83-88 | each single write of mutex_acquire keeps the invariant, holder_repeat_nr being 0 when it is set to 1 |
| Sync.Locks.MutexRelease | thread/sync.c:98-106 | the caller is the holder, and holder_repeat_nr is 1 or more |
| Sync.Locks.ReleaseWrite | thread/sync.c:101-108 | each single write of mutex_release keeps the invariant |
| Processes.ApplyKeepsInv | userprog/wait_exit.c:124-186 | fork, exit, one pass of wait, thread start and end keep the process-tree invariant |
| Processes.TreeSafe | userprog/wait_exit.c:124-186 | over every run: pids of live tasks distinct, every parent live and not exited and its pid taken, each status collected once and as it was left, a WAITING process other than init with a child and no zombie among them |
| Processes.BootInv | thread/thread.c:494-505 | init, main and idle with pids 1, 2 and 3 satisfy the invariant |
| Processes.EnterKeeps | userprog/fork.c:25-29 | a new task gets a pid that nobody has or names as parent, and the invariant holds |
| Processes.ForkIs | userprog/fork.c:25-29 | after a fork by t the child is a READY user process with the lowest free pid and t's pid as parent, last in thread_all_list, everybody else as before; so sys_wait by t does not answer -1 |
| Processes.ForkExitWait | userprog/wait_exit.c:138-186 | a parent without zombies that forks, and waits after the child's exit, gets the child's pid and status as int8_t; processes, list and pids are then what they were before the fork |
| Processes.ParentIsFound | thread/thread.c:113-119 | pid2thread finds the parent of every process that has one, and only it has that pid |
| Processes.WaitAnswers | userprog/wait_exit.c:138-163 | a pass of sys_wait collects a zombie child with the status it left and frees its pid, or says there is no child, or blocks |
| Processes.WaitIs | userprog/wait_exit.c:138-163 | field by field: the first zombie child in thread_all_list is collected, off the list and its pid free; or nothing changes; or only the caller's status does |
| Processes.ExitForEveryone | userprog/wait_exit.c:169-186 | what an exit changes of every process: the caller a zombie with its status, its children init's, its parent woken from wait |
| Processes.InitServedAfterExit | userprog/wait_exit.c:124-129 | init sleeps over a zombie after an exit if and only if it was waiting, the caller was not its child and left zombies |
| Processes.InitServedOn | userprog/wait_exit.c:124-163 | no other step leaves a zombie to an init that waits |
| Processes.InitServedAlways | userprog/wait_exit.c:124-163 | so over every run without such an exit init never sleeps over a zombie |
| Processes.InitMissesAZombie | userprog/wait_exit.c:124-129 | an orderly state and an exit for which that happens |
| Processes.ProcTable.AllocatePid | thread/thread.c:61-67 | the lowest free pid, marked |
| Processes.DropPids | thread/thread.c:74-79 | releasing the pid of a thread that goes keeps the bitmap exactly the set of live pids, each with one thread |
| Processes.ProcTable.Traverse | lib/kernel/list.c:111-121 | the first thread of the list that the callback accepts |
| Processes.ProcTable.ThreadExit | thread/thread.c:246-272 | thread, list entry and pid go together |
| Processes.ProcTable.SysFork | userprog/fork.c:192-213 | the child's parent is the caller's pid, it is READY and a user process with the lowest free pid, last in the list; every other process is unchanged and the invariant kept |
| Processes.ProcTable.SysExit | userprog/wait_exit.c:169-186 | the caller is a zombie with its status, its children are init's, its parent is out of sys_wait, everybody else unchanged, the invariant kept |
| Processes.ProcTable.SysWait | userprog/wait_exit.c:138-163 | one pass of the loop: the first zombie child collected, -1 exactly without children, or asleep; nothing else changes, the invariant kept |
| Processes.ProcTable.AdoptAll | userprog/wait_exit.c:124-129 | every child of the pid is init's, nobody else changes |
| Pipes.CloseKeeps | fs/fs.c:592-608 | closing a descriptor keeps all counts right if and only if it is a pipe's or no other slot names that file |
| Pipes.ExitKeeps | userprog/wait_exit.c:65-80 | so does an exit, if and only if no file of the process has a name elsewhere |
| Pipes.ForkKeeps | userprog/fork.c:135-148 | fork adds to each pipe as many as the new process names it |
| Pipes.ForkIs | userprog/fork.c:135-148 | the child's table is the parent's slot by slot, the parent's is unchanged, and each pipe counts one more for every slot from 3 on that names it |
| Pipes.PipeKeeps | shell/pipe.c:44-61 | a new pipe's count of 2 is right if and only if both ends got a slot |
| Pipes.OpenKeeps | fs/file.c:266-296 | opening a file keeps the counts |
| Pipes.DeniedKeeps | fs/file.c:279-292 | so does an open that fails because another writes the file, though it keeps the slot of file_table |
| Pipes.RedirectKeeps | shell/pipe.c:13-22 | so does a redirect of slots 0 to 2 |
| Pipes.RedirectUndone | shell/pipe.c:13-22 | the redirected slot names what the new one names, and redirecting it to itself undoes that, as the shell does |
| Pipes.FdTables.SysFdRedirect | shell/pipe.c:13-22 | slot old names standard descriptor new itself below 3 and otherwise the global file that slot new names; all other slots stay |
| Pipes.PipesBalance | shell/pipe.c:44-61 | over every such run fd_pos of an open pipe is the number of slots from 3 on that name it, and its page is given back once, when that is 0 |
| Pipes.BootInv | thread/thread.c:315-321 | the tables at boot satisfy the invariant |
| Pipes.SharedFileBreaksPipe | fs/file.c:305-312 | after a fork, a close by one side and a pipe, three slots name a pipe whose count is 2 |
| Pipes.CountedIs | userprog/fork.c:135-148 | the loop raises each pipe's count by the number of slots naming it |
| Pipes.FdTables.GetFreeSlotInGlobal | fs/file.c:19-32 | the first slot from 3 on without an inode, or none |
| Pipes.FdTables.PcbFdInstall | fs/file.c:41-59 | the first free slot from 3 on names the file, or nothing changes |
| Pipes.FdTables.SysPipe | shell/pipe.c:44-61 | nothing changes without a page; otherwise the new pipe in the tables, its ends in the first two free slots from 3 on and all other slots as before, both ends valid exactly when two slots were free |
| Pipes.FdTables.FileOpen | fs/file.c:266-295 | the file in the tables and its descriptor; -1 and nothing changed when file_table is full; -1 and a slot taken when another writes the file |
| Pipes.FdTables.SysClose | fs/fs.c:592-608 | -1 for slots 0 to 2; otherwise one name less, the page given back at 0 |
| Pipes.FdTables.Fork | userprog/fork.c:135-148 | the child has the parent's slots, the parent keeps its own, and pipe counts are up by the slots that name them |
| Pipes.FdTables.ReleaseDescriptors | userprog/wait_exit.c:65-80 | the loop that leaves pipe slots uncleared has the effect of closing them one by one |
| Blocks.TableRoundTrip | fs/file.c:465 | block numbers stored in the indirect block are read back |
| Blocks.ChunkAppends | fs/file.c:499-531 | one sector written at the end appends that chunk to the contents |
| Blocks.DataWriteKeepsLbas | fs/file.c:521 | writing a data block moves no block of the file |
| Blocks.HoldOneMore | fs/file.c:408-423 | a fresh sector added keeps the blocks allocated and distinct |
| Blocks.AccountOneMore | fs/file.c:408-423 | and the bitmap the file's blocks and the others' |
| Files.Partition.BlockBitmapAlloc | fs/file.c:84-90 | the first free data sector, never the root directory's, is marked and nothing else; it stops exactly when none is free |
| Files.Inode.constructor | fs/inode.c:280-290 | size 0 and no sector |
| Files.AddDirect | fs/file.c:400-423 | new direct blocks: allocated, distinct, accounted for, contents unchanged; it succeeds exactly when enough sectors are free |
| Files.AddAcross | fs/file.c:425-465 | the first indirect blocks, right when all direct blocks exist; a hole at the first new block otherwise |
| Files.AddIndirect | fs/file.c:468-490 | more indirect blocks, contents unchanged |
| Files.WriteData | fs/file.c:496-531 | the loop appends the whole buffer when the table is right for the blocks it writes |
| Files.FileWrite | fs/file.c:323-547 | -1 exactly above the maximum; a stop exactly at the maximum or without enough sectors; otherwise the file is whole afterwards if and only if the call does not cross block 12 from below, and then contents grow by the buffer and the bitmap by the file's new sectors |
| Files.HoleAfterFirstWrite | fs/file.c:425-465 | such a call: twelve blocks of bytes written to a new file leave a file with a block missing |
| Files.ReadIsRight | fs/file.c:590-628 | the table that file_read builds names the right sector of every block touched if and only if the range is one block, ends before block 12, ends exactly at its start, or goes from a direct block past block 12 |
| Files.CoveredReads | fs/file.c:590-651 | and then the bytes are that part of the contents |
| Files.BehindTheDirectBlocks | fs/file.c:606-628 | a range that is not covered in every file of 13 blocks: for the whole first block behind the direct ones sector 0 is read |
| Files.MissedRead | fs/file.c:606-628 | a file written with covered calls only for which such a read returns sector 0 |
| Files.FileRead | fs/file.c:558-652 | -1 exactly at the end, the ASSERT exactly past the table; otherwise as many bytes as asked for or all up to the end, the contents from fd_pos on for covered ranges, and fd_pos moved on by them |
| Files.WriteThenRead | fs/file.c:323-652 | what file_write has appended file_read gives back from there on, for ranges it covers |
| Files.BuildReadTable | fs/file.c:590-628 | the table of the branches, built by the copying loops |
| Files.InodeRelease | fs/inode.c:217-259 | exactly the sectors that the inode and its indirect block name become free, in a file with a hole too; for a whole file the bitmap is what it was without it |
| Files.WriteRun | fs/file.c:323-547 | a run of calls succeeds as a whole exactly when sizes, free sectors and block 12 allow each call; it leaves the file with its contents and all buffers in order |
| Files.WriteRunThenRelease | fs/inode.c:217-259 | from a new inode through any such run to its release, the block bitmap is what it was |
| Slots.SlotRoundTrip | lib/types.h:86-90 | an entry stored in 24 bytes is read back, name, inode and type |
| Slots.SlotLayout | lib/types.h:86-90 | name, inode number and type of an entry are at bytes 0, 16 and 20 of its 24, numbers with the lowest byte first |
| Slots.PutSlotIsUpdate | fs/dir.c:423-424 | storing an entry changes that slot of the sector and no other |
| Directories.AddIsInsert | fs/dir.c:354-431 | adding an entry of a new name inserts that key and nothing else and keeps names unique and i_size 24 times the count; a taken name never does |
| Directories.PlaceIsFirst | fs/dir.c:354-431 | a new entry's place is the first: every slot of every block before it is in use, and every slot before it in its block |
| Directories.BeyondIsFull | fs/dir.c:357-431 | there is no place among the direct blocks exactly when all slots are in use |
| Directories.SearchIsLookup | fs/dir.c:254-288 | though it ignores types, the search finds exactly the map's entry for any non-empty name |
| Directories.DeleteIsRemove | fs/dir.c:82-208 | deletion removes exactly the entry found from the map if and only if an entry in use other than ".." comes before it in its block, or the block has no other entry at all |
| Directories.DropsIs | fs/dir.c:116-158 | the count and the flag, as they stand at the entry found, drop the block if and only if no slot before it is in use but under the name ".." |
| Directories.DeleteKeepsOrder | fs/dir.c:197-201 | and keeps unique names and i_size in the same cases only |
| Directories.DropLosesTheOther | fs/dir.c:154-167 | where it does not: of two entries in a second block, deleting the first takes the other with it |
| Directories.DropKeepsTheFirst | fs/dir.c:192-201 | of the same two entries, deleting the second keeps the first |
| Directories.FirstBlockKept | fs/dir.c:124-127 | in the block of "." nothing else is ever lost |
| Directories.DroppedBlockLeaks | fs/dir.c:158-167 | the bit cleared is that of the sector as far behind the dropped one as the data sectors are behind the bitmap; the dropped block and every other sector keep theirs |
| Directories.EmptyIsDots | fs/dir.c:517-521 | size 48 means exactly "." and ".." |
| Directories.SyncDirEntry | fs/dir.c:312-435 | the entry is at the first place, a new sector or a free slot; stops exactly when a sector is needed and none free; else unchanged |
| Directories.SearchDirEntry | fs/dir.c:226-293 | the first slot of that name over all blocks |
| Directories.ScanToDelete | fs/dir.c:116-146 | the slot found, with the count and flag as they stand there |
| Directories.DeleteDirEntry | fs/dir.c:82-208 | found exactly when some entry in use other than the dots has that inode; for the first such entry the block is dropped if no slot before it is in use but "..", and otherwise that slot alone is zeroed; sectors, bitmap and i_size as these cases leave them |
| Directories.DirRead | fs/dir.c:448-507 | the entry in use at dir_pos and the position after it, or NULL at the end |
| Directories.ReadAll | fs/dir.c:448-507 | from position 0 repeated reads give every entry once in order and then NULL |
| Paths.PathParse | fs/fs.c:368-380 | past exactly the leading slashes, the first run without a slash and the rest from the next slash on, or NULL at the end |
| Paths.PartsAreRuns | fs/fs.c:368-380 | the components of a path are its maximal runs without a slash, in order and all of them |
| Paths.RunsAreParts | fs/fs.c:368-380 | and nothing else spells those runs |
| Paths.SlashesDoNotCount | fs/fs.c:371 | a slash more in front changes no component |
| Paths.WashIsNormal | shell/builtin_cmd.c:17-59 | the cleaned path has no ".", "..", doubled or trailing slash, and cleaning is idempotent |
| Paths.CutLast | shell/builtin_cmd.c:40-43 | cutting at the last slash takes the last component off |
| Paths.WashStep | shell/builtin_cmd.c:39-52 | one component: the text after it is the stack after it |
| Paths.WashPath | shell/builtin_cmd.c:17-59 | the stack-machine normal form of the path, rendered |
| Paths.WashFits | shell/builtin_cmd.c:17-59 | the result is never longer than the path, so the buffer holds it |
| PathSearch.FollowPath | fs/fs.c:414-488 | the loop resolves the components one by one, stopping at a regular file |
| PathSearch.WalkHasTrail | fs/fs.c:441-488 | every answer is the end of a trail of directories, each an entry of the one before under its component: all components used up, a regular file under the next, or no entry under the next |
| PathSearch.TrailIsWalk | fs/fs.c:441-488 | and where names are unique the end of any such trail is the answer |
| PathSearch.CleaningKeepsMeaning | shell/builtin_cmd.c:68-79 | if p resolves, its cleaned form resolves to the same inode if and only if the normal form of the components looked up is a prefix of the whole normal form; always for directories |
| PathSearch.WithoutDotDotMeaningIsKept | shell/builtin_cmd.c:68-79 | in particular for every path without ".." |
| PathSearch.CleaningCanChangeMeaning | fs/fs.c:465-468 | "/f/.." with a regular file f resolves to f, its cleaned form to the root |
| PathSearch.NormalReaches | fs/fs.c:441-464 | cleaned components reach the same directory |
| PathSearch.OneDirPath | fs/fs.c:441-464 | a directory has one path in normal form |
| PathSearch.CwdReaches | fs/fs.c:1135-1183 | the names read off upwards lead back down to the directory |
| PathSearch.GetChildDirName | fs/fs.c:1080-1124 | the name of the first entry with that inode |
| PathSearch.Climb | fs/fs.c:1159-1167 | the climb ends, by depth, with all names in reverse |
| PathSearch.TurnRound | fs/fs.c:1170-1179 | turning the reversed path round by its last slashes gives the path |
| PathSearch.SysGetCwd | fs/fs.c:1135-1183 | the path in normal form of the current directory |
| PathSearch.SysChdir | fs/fs.c:1192-1208 | 0 and the directory found, or -1 and the old one |
| PathSearch.CwdIsInverse | fs/fs.c:1135-1208 | search_file on the getcwd path returns the directory it started from, and it is the only path in normal form that does |
| PathSearch.ChdirToCwd | fs/fs.c:1135-1208 | chdir(getcwd()) returns 0 and the working directory is what it was |

## Left out

- Boot, assembly, port I/O, console, keyboard, shell prompt, printf, TSS, GDT, IDT and TLB flushing: hardware or presentation.
- ELF loading, ATA chunking, partition scanning and formatting: mostly straight-line arithmetic or device protocol.
- device/ioqueue.c: the sleeper holds the mutex, so no liveness holds, and the ring buffer's other facts are easy.
- Widths of counters: `holder_repeat_nr`, `total_ticks`, `ticks`, `i_open_cnt` and list lengths do not wrap in the model. `fd_pos` of a file, `exit_status` and addresses do; the `fd_pos` of a pipe wraps only below 0.
- Lists.List.Traversal: callbacks that change the records they visit are modelled where they are used (`Processes.ProcTable.AdoptAll`), not in the list.
- Lists.List.Pop: requires a list that is not empty; the source would unlink its tail sentinel.
- Lists outside Lists.dfy are sequences; Lists.dfy proves that the linked form is one, and keeps other lists as they are.
- Memory.Allocator.SysMalloc: the mutex around the heap, which Sync.dfy treats, is taken to be free, and pages that others take in the same context during a run are not in it; nor are the bytes of a block, which the source clears.
- Heap of a process across fork: `block_desc_init` empties the child's class lists while its pages are copied, so the invariant of Heap.dfy does not carry over.
- Paging.Pager.VaddrGet: a run that ends in the bit behind the virtual bitmap is reported (OffTheEnd) and not followed further.
- Paging.Pager.MallocPage: the state that a stop in the middle of a run leaves is not described.
- Kernel stacks, `build_child_stack` and the rest of the TCB copy in fork: no property spans them.
- Freeing of a process's pages at exit: the bitmap's pages are rounded down there and up at creation, so kernel pages are not conserved.
- Allocation failures inside `file_write` after the first sector is taken: the state a stopped or failing call leaves is not described.
- Files.FileWrite: the disk copies of bitmaps and inodes are not modelled, since `inode_locate` and `inode_sync` do not place them reliably; the in-memory inode is.
- Files.FileWrite: the buffer is its bytes, so counts that no buffer in user space has, for which `i_size + count` wraps, are not there.
- Files.FileRead: counts for which `fd_pos + count` wraps in 32 bits are excluded; requires `fd_pos` within the file, as lseek leaves it, or the value a write of no bytes to an empty file leaves.
- Files.InodeRelease: that the sectors a crossing `file_write` takes for the hole are named nowhere, and so stay taken, is not stated.
- Directories.SyncDirEntry: what happens once the 12 direct blocks are full is not modelled (PastDirect); the source does not load the indirect table there.
- Directories.DeleteDirEntry: directories with an indirect block are not modelled, and the bit it clears past the end of the bitmap is not followed.
- Names of exactly 16 bytes have no terminating zero; entries and paths here have names under 16 bytes.
- Directories and PathSearch are two views: PathSearch.dfy takes a directory as its entries in slot order, which is what Directories.dfy proves a search sees.
- PathSearch.SearchFile: a path of slashes only, other than "/", is excluded, since the source then returns what was on its stack; the `searched_path` record and the opening of directories are not modelled.
- PathSearch.SysGetCwd: requires that the path fits in the caller's buffer, as the source asserts, and in the 512 bytes it is built in.
- Processes: `release_pid` takes the pid mutex; it is taken to be free. A contended one would put an exiting thread to sleep after its status is set.
- Processes: a fork that runs out of memory halfway leaves a pid taken; forks here succeed.
- Scheduler: stack overflow checks and the address-space switch in `schedule` are not modelled.
- Sync: condition on callers, that a plain semaphore is raised only at 0 and a mutex released only by its holder, is what the file's ASSERTs demand.
- Pipes.Allowed: redirects rewrite slots 0 to 2, as the shell's do; a redirect of a higher slot changes the number of names without changing the count.
- Pipes.FdTables.SysPipe: no slot in `file_table` is reported (NoSlot) where the source goes on with index -1.
- Pipes.FdTables.Fork: `i_open_cnt` of regular files, which fork raises too, is not modelled.
