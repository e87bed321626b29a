# Verified models of a Linux 0.12 kernel

This project models the parts of the kernel in `book-source-code/linux_kernel_012-third` that keep state in
linked structures, tables and rings, and proves what they promise.  Code that changes things step by step is
written as classes with arrays and methods; each method's contract ties its effect to a function on plain
values, and the lemmas about those functions carry the arguments over whole runs.

* **The block layer** (`ZoneTree`, `Disk`, `Bitmap`, `InodeMap`, `Truncation`, `FileDev`, `FlatFiles`,
  `BusyTruncation`).  A zone is in use exactly when one pointer of one file leads to it.  Files read and written
  through direct, indirect and double indirect blocks behave like flat byte arrays, and truncation frees exactly
  the zones of its file however often busy blocks make it start over, whatever other tasks do to other files in
  between.
* **Memory** (`Paging`, `Memory`, `CopyOnWrite`, `Faults`, `ForkMemory`, `FlatSpaces`).  Use counts equal the
  number of references.  Tasks that share pages copy-on-write see what they would see with memories of
  their own, over every run of forks, stores, shares, execs, exits and writes of the kernel, whose stores do not
  look at the writable bit.  A fork that runs out of frames leaves every count and every view as it was.
* **Waiting** (`SleepQueue`, `BufferLock`).  The waiters of a slot form a stack made of local variables; no
  waiter of an unlocked buffer is forgotten.
* **The family of tasks** (`Forest`, `Family`).  The parent, child and sibling pointers spell one tree.
* **Scheduling** (`Slices`, `Scheduler`).  One recharge is enough, slices stay below twice the priority, and a
  ready task with time left waits only for the time the others have left.
* **The buffer cache** (`BufferIndex`, `CacheLinks`, `Buffers`, `CacheRuns`).  The hash chains and the free ring
  stay exact across every sleep of `getblk`.  Whoever holds an up-to-date buffer sees the last write, as long as
  evictions are harmless, and exactly those runs keep the cache transparent at every step.
* **Block requests** (`Elevator`, `BlockRequests`).  Every device queue is at most two sweeps of rising sectors.
* **The console** (`Terminal`, `Console`, `ScreenLaws`, `SequenceLaws`).  Video memory with a moving origin looks
  like a plain grid.  What every control sequence does to the cursor and to each cell is proved in numbers; control
  functions are those of section 8.3 of ECMA-48.
* **Terminal lines** (`LineEdit`, `TypingLaws`, `Ttys`), **pipes** (`Pipe`) and **program arguments** (`Arguments`, `ExecArgs`).

`Collections` has what several of them share.

Where a statement about the code is false, a lemma names the inputs and the exact condition is proved:

* `getblk` takes the head of the free list when no buffer is spare, although it remembered a better one
  (`bh = tmp`).  The cache stays transparent if and only if nobody holds that buffer, it is not locked, and what was
  changed in it is on the disk anyway (`CacheRuns.EvictionIsSafeIff`, `CacheRuns.MissIsSafeIff`, and over runs
  `CacheRuns.RunIsGoodIff`); whatever the disk has, that means `b_count == 0` and neither `b_dirt` nor `b_lock`
  (`CacheRuns.OnlySparesAreSafe`).  `CacheRuns.DirtyHeadIsLost` loses a write, `CacheRuns.HeldHeadIsStolen` takes a
  buffer away from its holder.
* `ESC [ n d` goes to row n + 1, since the guard of the decrement is the wrong way round; it reaches row n only
  when the cursor is there already and the next row does not exist, and without a parameter only on row 1
  (`ScreenLaws.LineAddressIsOff`, `ScreenLaws.LineAddressOmitted`).
* A stream leaves the console deaf if and only if `ESC [ [`, `ESC (`, `ESC )` or `ESC #` starts in it where no other
  sequence is under way (`ScreenLaws.DeafIff`, `ScreenLaws.StreamDeafensIff`).
* `tty_write` never looks whether its ring is full: a write arrives complete if and only if its translation
  is shorter than 1024 characters (`LineEdit.WriteCompleteIff`).
* The reader of a terminal takes the beginning of an unfinished line too: over a whole run, what was read and then
  the ring is the edited text if and only if no erase or kill ever reached what was taken
  (`LineEdit.RingIsEditedTextIff`); `LineEdit.TakenPartStays` is a case in which one does.
* The test `p-len < 0` of `copy_strings` can never be true of unsigned numbers.  All strings have a place in the
  pages if and only if they are no longer than the room below `p` (`ExecArgs.StringsFitIff`);
  `ExecArgs.OneByteTooLong` is the shortest case that is neither refused nor has one.
* `share_page` answers 0 also when it has shared a page, and `do_no_page` puts the page it then reads over the shared
  one: the use counts stay exact if and only if nothing was there (`Faults.PutOverSharedIff`).
* When task 1 ends it inherits its own children: the pointers still spell the family if and only if it had none
  (`Family.FirstExitSpellsIff`).
* A store of the kernel into a page that was not verified is seen by its task alone if and only if nobody shares the
  page or nothing changes (`Paging.StoreIsPrivateIff`, `Faults.UnverifiedStoreShows`).

Kernel code runs undivided between two calls of `schedule`, and interrupts are steps of their own.

## Model

| member | source | states |
|---|---|---|
| ZoneTree.BitmapAgreesWithTrees | book-source-code/linux_kernel_012-third/fs/bitmap.c:43-107 | a data zone has its bit set if and only if some pointer in some file tree leads to it, and then only one does |
| ZoneTree.LeafLocInjective | book-source-code/linux_kernel_012-third/fs/inode.c:86-157 | two different blocks of two files never share a place for their pointer |
| ZoneTree.Attach | book-source-code/linux_kernel_012-third/fs/inode.c:86-108 | claiming a free zone and hanging it at an empty place adds exactly that pointer and keeps bitmap and trees in agreement |
| ZoneTree.AttachKeepsBytes | book-source-code/linux_kernel_012-third/fs/inode.c:86-157 | attaching a zone changes no byte of any file, since a hole already reads as zero |
| ZoneTree.WordsAreBytes | book-source-code/linux_kernel_012-third/fs/file_dev.c:26-34 | a word of a block on the device is two bytes of the file, the low one first |
| ZoneTree.Detach | book-source-code/linux_kernel_012-third/fs/truncate.c:4-34 | freeing a zone without children and clearing its pointer removes that pointer and no other |
| ZoneTree.Store | book-source-code/linux_kernel_012-third/fs/file_dev.c:70-71 | storing into a data block shows in that block of that file and moves no pointer |
| ZoneTree.OthersKeepBytes | book-source-code/linux_kernel_012-third/fs/truncate.c:68-105 | a change confined to one tree leaves every byte of every other file alone |
| Disks.Disk.constructor | book-source-code/linux_kernel_012-third/fs/bitmap.c:43-77 | a formatted device has no zone in use and satisfies the agreement of bitmap and trees |
| Bitmap.FindFirstZero | book-source-code/linux_kernel_012-third/fs/bitmap.c:26-40 | the first clear bit of a bitmap block, or 8192 when all are set |
| Bitmap.NewBlock | book-source-code/linux_kernel_012-third/fs/bitmap.c:43-77 | takes the free data zone of least number and clears it; 0 only when every data zone is owned |
| Bitmap.FreeBlock | book-source-code/linux_kernel_012-third/fs/bitmap.c:79-107 | each of the four ends happens exactly under its condition, and only freeing changes the device |
| Bitmap.FreeUsed | book-source-code/linux_kernel_012-third/fs/bitmap.c:79-107 | freeing a zone that some pointer leads to ends in neither panic: it is a data zone and its bit is set |
| InodeMap.FillStep | book-source-code/linux_kernel_012-third/fs/inode.c:86-157 | filling one pointer on the way to a block leaves the map of every other block alone |
| InodeMap.PathToLeaf | book-source-code/linux_kernel_012-third/fs/inode.c:96-157 | which index blocks lead to a block, and that a mapped block has all of them |
| InodeMap.BlockMap | book-source-code/linux_kernel_012-third/fs/inode.c:80-166 | after creating, the map of the block is the result; every other block of every file keeps its zone and every byte stays; a result of 0 leaves the block unmapped and means the device is full |
| Truncation.ClearFreed | book-source-code/linux_kernel_012-third/fs/truncate.c:4-66 | clearing the pointer to a subtree just freed completes the removal of that subtree |
| Truncation.FreeEntry | book-source-code/linux_kernel_012-third/fs/truncate.c:17-26 | one entry of an index block is freed and cleared, or kept when it is busy; no other pointer changes |
| Truncation.FreeInd | book-source-code/linux_kernel_012-third/fs/truncate.c:4-34 | frees the listed zones and then the index block; when something was busy the rest is freed and agreement holds |
| Truncation.FreeDind | book-source-code/linux_kernel_012-third/fs/truncate.c:36-66 | the same for the double indirect block and everything below it |
| Truncation.TruncatePass | book-source-code/linux_kernel_012-third/fs/truncate.c:75-101 | one pass only removes pointers of its file, and without busy blocks it removes them all |
| Truncation.Truncate | book-source-code/linux_kernel_012-third/fs/truncate.c:68-105 | whatever blocks are busy in between, exactly the zones of the file are freed, each once, and no other file changes |
| BusyTruncation.TruncateAmong | book-source-code/linux_kernel_012-third/fs/truncate.c:76-105 | whatever other tasks do to other files while truncate sleeps, the file ends empty and owns no zone, and every other file shows what their operations give on flat byte arrays |
| BusyTruncation.PrunedShows | book-source-code/linux_kernel_012-third/fs/truncate.c:78-95 | a walk of truncate changes the bytes of no other file |
| Truncation.NothingLeft | book-source-code/linux_kernel_012-third/fs/truncate.c:68-105 | when the nine pointers are zero, exactly the zones of the other files are still owned |
| FileDev.FileRead | book-source-code/linux_kernel_012-third/fs/file_dev.c:11-40 | the bytes delivered are the bytes of the file from the position on, holes reading as zero |
| FileDev.CopyIn | book-source-code/linux_kernel_012-third/fs/file_dev.c:70-71 | the bytes go to their place in the block and nowhere else |
| FileDev.WriteChunk | book-source-code/linux_kernel_012-third/fs/file_dev.c:55-72 | one round overlays its bytes on the file and changes no other; it stores nothing only when the device is full |
| FileDev.OverlayTrans | book-source-code/linux_kernel_012-third/fs/file_dev.c:55-72 | two rounds in a row overlay the concatenation |
| FileDev.FileWrite | book-source-code/linux_kernel_012-third/fs/file_dev.c:42-78 | the file becomes the overlay of the bytes written, in append mode at its end; fewer arrive only when the device is full |
| FlatFiles.Execute | book-source-code/linux_kernel_012-third/fs/file_dev.c:11-78 | one read, write or truncation gives the result and the contents that flat byte arrays give, and a write falls short only when the device is full |
| FlatFiles.Run | book-source-code/linux_kernel_012-third/fs/file_dev.c:11-78 | any run on the device gives the results and leaves the contents of the same run on flat byte arrays, after every operation; a write falls short only when the device is full then |
| FlatFiles.StepByte | book-source-code/linux_kernel_012-third/fs/file_dev.c:42-78 | what one operation does to one byte of one file |
| FlatFiles.LastOperationWins | book-source-code/linux_kernel_012-third/fs/file_dev.c:11-78 | after any run a byte shows what the last write put there, zero after a truncation, and otherwise its first value |
| Paging.CountBound | book-source-code/linux_kernel_012-third/mm/memory.c:82-85 | no frame is counted more than 63 times, so the 8-bit count never wraps |
| Paging.CountsDetermined | book-source-code/linux_kernel_012-third/mm/memory.c:57-106 | the use counts follow from the directory, the mappings and the frames the kernel holds |
| Paging.AllocStep | book-source-code/linux_kernel_012-third/mm/swap.c:3-27 | handing out a free frame keeps every count exact and every view as it was |
| Paging.PlugTable | book-source-code/linux_kernel_012-third/mm/memory.c:76-78 | a cleared frame becomes an empty page table without any other task noticing |
| Paging.PlugPage | book-source-code/linux_kernel_012-third/mm/memory.c:147-165 | mapping a frame at an empty page changes that page only and keeps the counts exact |
| Paging.Unplug | book-source-code/linux_kernel_012-third/mm/memory.c:42-49 | clearing a page entry removes one reference and changes no other page |
| Paging.Share | book-source-code/linux_kernel_012-third/mm/memory.c:91-103 | a read-only entry for a page already mapped keeps counts exact and shows the same page |
| Paging.StoreStep | book-source-code/linux_kernel_012-third/mm/memory.c:108-124 | a store through a writable entry is seen by that task and by no other |
| Paging.StoreIsPrivateIff | book-source-code/linux_kernel_012-third/mm/memory.c:135-145 | a store that does not look at the writable bit is seen by its task alone if and only if nobody shares the page or nothing changes |
| Paging.EntryBits | book-source-code/linux_kernel_012-third/mm/memory.c:96-114 | which bits of an entry are frame, present, writable and dirty, and that protecting, unprotecting and marking change one bit |
| Memories.Memory.constructor | book-source-code/linux_kernel_012-third/mm/memory.c:314-329 | after boot the managed frames are free and all others are marked used |
| Memories.TablesNeeded | book-source-code/linux_kernel_012-third/mm/memory.c:33-35 | the tables of a range cover it, and one less would not |
| Memories.Memory.GetFreePage | book-source-code/linux_kernel_012-third/mm/swap.c:3-27 | the highest free frame is marked used and cleared; 0 only when none is free |
| Memories.Memory.FreePage | book-source-code/linux_kernel_012-third/mm/memory.c:15-25 | each of the four ends happens exactly under its condition |
| Memories.Memory.FreePageTables | book-source-code/linux_kernel_012-third/mm/memory.c:27-55 | every page and table of the range is given up, counts stay exact and no other range changes |
| Memories.Memory.CopyEntry | book-source-code/linux_kernel_012-third/mm/memory.c:82-103 | one page is mapped in the child too, read-only for both, and both see what the parent saw |
| CopyOnWrite.AsManyTables | book-source-code/linux_kernel_012-third/mm/memory.c:74-78 | a set of frames that all became page tables of n directory entries has at most n members |
| CopyOnWrite.CopyTable | book-source-code/linux_kernel_012-third/mm/memory.c:70-104 | the new table maps exactly the pages of the old one, of task 0 only the first 160 |
| CopyOnWrite.CopyPageTables | book-source-code/linux_kernel_012-third/mm/memory.c:57-106 | the range at the target gets exactly the pages of the source range; -1 only when the frames ran out, and only page tables were taken |
| CopyOnWrite.SeparateStep | book-source-code/linux_kernel_012-third/mm/memory.c:116-123 | moving a shared page to a frame of its own changes nobody's view |
| CopyOnWrite.UnWpPage | book-source-code/linux_kernel_012-third/mm/memory.c:108-124 | afterwards the page is writable and private, and no view has changed; it ends otherwise exactly when the page is shared and no frame is free |
| Faults.WriteVerify | book-source-code/linux_kernel_012-third/mm/memory.c:135-145 | a present page becomes writable and private, and no view has changed |
| Faults.VerifyArea | book-source-code/linux_kernel_012-third/kernel/fork.c:12-24 | every present page of the area becomes writable, and no view has changed |
| Faults.AddressBits | book-source-code/linux_kernel_012-third/mm/memory.c:151-163 | an address is directory entry, table entry, word and byte |
| Faults.PutPage | book-source-code/linux_kernel_012-third/mm/memory.c:147-165 | the frame is mapped at the address, with user, writable and present bit set, and nowhere else; 0 only when no frame is left for a table |
| Faults.GetEmptyPage | book-source-code/linux_kernel_012-third/mm/memory.c:187-193 | the task gets a page of zeros, or nothing changes for anyone because at most one frame was left |
| Faults.TryToShare | book-source-code/linux_kernel_012-third/mm/memory.c:195-238 | a page is taken over exactly when it is mapped, clean and not below LOW_MEM, and both tasks see it; it runs out of memory exactly when a table is needed and no frame is free |
| Faults.MakeWritable | book-source-code/linux_kernel_012-third/mm/memory.c:126-133 | after the fault handlers the page is there, writable, and shows what it showed |
| Faults.StoreUser | book-source-code/linux_kernel_012-third/mm/memory.c:108-133 | a store shows in the page of that task only; it fails only when at most one frame is left |
| Faults.StoreKernel | book-source-code/linux_kernel_012-third/mm/memory.c:135-193 | a word stored by the kernel into a verified area shows in the page of that task only, though the writable bit is not looked at |
| Faults.UnverifiedStoreShows | book-source-code/linux_kernel_012-third/mm/memory.c:135-145 | without verify_area the same store changes what another task sees |
| Faults.PutOverSharedIff | book-source-code/linux_kernel_012-third/mm/memory.c:292-311 | putting the page that was read at the address keeps the use counts exact if and only if nothing was shared there |
| ForkMemory.Tasks.CopyMem | book-source-code/linux_kernel_012-third/kernel/fork.c:26-49 | the child gets the pages of the parent, or no table of the new slot remains; failing means that fewer frames were free than the slot has tables |
| ForkMemory.Tasks.Fork | book-source-code/linux_kernel_012-third/kernel/fork.c:51-145 | a fork copies every page below the limit; a failed one restores every count, table and view and happens only with at most 17 frames free |
| ForkMemory.Tasks.Exit | book-source-code/linux_kernel_012-third/kernel/exit.c:137-233 | the slot is emptied and the structure given back, and no other task sees a difference |
| ForkMemory.Tasks.Exec | book-source-code/linux_kernel_012-third/fs/exec.c:210-211 | the old space is gone and the task has an empty one of full size |
| ForkMemory.Tasks.ForkAndExit | book-source-code/linux_kernel_012-third/kernel/fork.c:51-145 | a fork followed by the end of the child restores every count, table and view |
| FlatSpaces.Boot | book-source-code/linux_kernel_012-third/mm/memory.c:314-329 | the memory after boot shows the flat spaces at the start |
| FlatSpaces.DoFork | book-source-code/linux_kernel_012-third/kernel/fork.c:51-145 | a fork shows the child exactly the space of its parent |
| FlatSpaces.DoStore | book-source-code/linux_kernel_012-third/mm/memory.c:126-133 | a store changes one page of one flat space |
| FlatSpaces.DoKernelWrite | book-source-code/linux_kernel_012-third/kernel/fork.c:12-24 | verify_area and then stores that ignore the writable bit lay the words over the space of that task alone |
| FlatSpaces.WordsLie | book-source-code/linux_kernel_012-third/kernel/fork.c:12-24 | the words of a kernel write lie where they were written, and every other word of the space is what it was |
| FlatSpaces.Execute | book-source-code/linux_kernel_012-third/mm/memory.c:57-145 | every operation has the effect it has on separate spaces; fork, stores and kernel writes fall short only when frames are short, and a page is shared exactly when it may be or frames run out |
| FlatSpaces.Run | book-source-code/linux_kernel_012-third/mm/memory.c:57-145 | any run of forks, stores, kernel writes, shares, execs and exits shows every task, after every step, what the run shows on separate spaces; nothing is refused without its reason, and the memory of a task that no operation is on stays as it was |
| FlatSpaces.OthersAreInvisible | book-source-code/linux_kernel_012-third/mm/memory.c:108-145 | no run of operations of other tasks changes what a task sees in memory |
| FlatSpaces.ChildKeepsForkImage | book-source-code/linux_kernel_012-third/kernel/fork.c:26-49 | whatever everyone else does, the child sees in memory the pages its parent saw at the fork |
| SleepQueue.StackKept | book-source-code/linux_kernel_012-third/kernel/sched.c:93-137 | after every event the waiters form a stack without duplicates whose top is the slot and whose links are the locals; a task leaves exactly when it is on top, and the slot is never empty then |
| SleepQueue.RunnableKept | book-source-code/linux_kernel_012-third/kernel/sched.c:105-118 | once some waiter can run, some waiter can run until none is left |
| SleepQueue.WakeWakes | book-source-code/linux_kernel_012-third/kernel/sched.c:129-137 | a wake-up makes a waiter runnable if there is one |
| SleepQueue.RunKeepsStack | book-source-code/linux_kernel_012-third/kernel/sched.c:93-137 | the stack survives every run of sleeps, picks and wake-ups |
| SleepQueue.ResumeProgress | book-source-code/linux_kernel_012-third/kernel/sched.c:105-118 | every pick makes the stack shorter, or leaves fewer waiters below the top that can run |
| SleepQueue.StackDrains | book-source-code/linux_kernel_012-third/kernel/sched.c:93-137 | without arrivals a run of picks has bounded length, and it can end only with no waiter or one that can run |
| BufferLock.ActKeeps | book-source-code/linux_kernel_012-third/kernel/blk_drv/ll_rw_blk.c:24-37 | every call, pick and unlock keeps a waiter runnable while the buffer is unlocked |
| BufferLock.NobodyIsForgotten | book-source-code/linux_kernel_012-third/kernel/blk_drv/ll_rw_blk.c:24-37 | in every reachable state an unlocked buffer with waiters has one that can run |
| BufferLock.Buffer.SleepOn | book-source-code/linux_kernel_012-third/kernel/sched.c:93-104 | the first half of sleeping, on the real slot and locals |
| BufferLock.Buffer.AfterSchedule | book-source-code/linux_kernel_012-third/kernel/sched.c:105-118 | the second half: the task leaves exactly when the slot holds it, and passes the wake-up on |
| BufferLock.Buffer.Enter | book-source-code/linux_kernel_012-third/fs/buffer.c:16-22 | waiting for, or taking, the lock is the step of the machine |
| BufferLock.Buffer.Continue | book-source-code/linux_kernel_012-third/fs/buffer.c:16-22 | being picked again is the step of the machine, with the loop test repeated |
| BufferLock.Buffer.Release | book-source-code/linux_kernel_012-third/kernel/blk_drv/ll_rw_blk.c:32-37 | unlocking clears the lock and wakes the top |
| Forests.BirthKeeps | book-source-code/linux_kernel_012-third/kernel/fork.c:134-140 | a birth keeps the tree: lists without duplicates, parents alive and older, zombies childless |
| Forests.DeathKeeps | book-source-code/linux_kernel_012-third/kernel/exit.c:183-215 | a death that hands the children to task 1 keeps the tree |
| Forests.BurialKeeps | book-source-code/linux_kernel_012-third/kernel/exit.c:10-35 | removing a zombie keeps the tree |
| Forests.AllDescendFromInit | book-source-code/linux_kernel_012-third/kernel/exit.c:183-215 | every task but the idle one descends from task 1 |
| Forests.InitHasChild | book-source-code/linux_kernel_012-third/kernel/exit.c:209-211 | task 1 has a child whenever a third task exists, so line 210 never follows a null pointer |
| Forests.FamilyStaysProper | book-source-code/linux_kernel_012-third/kernel/exit.c:10-35 | any run of forks, exits and waits keeps one tree that descends from task 1 |
| Family.LinkedSpells | book-source-code/linux_kernel_012-third/kernel/fork.c:134-140 | the four pointer assignments put the child in front of its parent's list, in both directions |
| Family.AdoptedSpells | book-source-code/linux_kernel_012-third/kernel/exit.c:183-215 | the reparenting loop splices the whole list in front of the list of task 1 |
| Family.UnlinkedSpells | book-source-code/linux_kernel_012-third/kernel/exit.c:22-28 | the relinking takes exactly one task out of its sibling list |
| Family.Tasks.Fork | book-source-code/linux_kernel_012-third/kernel/fork.c:59-145 | the new task is the youngest child of its parent and sits in the free slot |
| Family.Tasks.Exit | book-source-code/linux_kernel_012-third/kernel/exit.c:154-215 | the task is a zombie with its exit code and without children, and task 1 has inherited them |
| Family.Tasks.ExitFirst | book-source-code/linux_kernel_012-third/kernel/exit.c:154-215 | when task 1 ends its children form a ring that no child pointer leads to |
| Family.FirstExitSpellsIff | book-source-code/linux_kernel_012-third/kernel/exit.c:183-215 | then the pointers still spell the family if and only if task 1 had no children |
| Family.FirstExitLoses | book-source-code/linux_kernel_012-third/kernel/exit.c:209-212 | and none of its children is in any list |
| Family.Tasks.ScanChildren | book-source-code/linux_kernel_012-third/kernel/exit.c:246-278 | the first ready child in order of youth, and whether a wanted child is still running; which children every kind of pid means, by their numbers |
| Family.Tasks.WaitPass | book-source-code/linux_kernel_012-third/kernel/exit.c:246-292 | exactly the first ready child is reaped or reported, with its pid and status; no zombie that pid means is passed over, for -1, one task, the own group and another group; with -1 the answer is that there is no child if and only if all are stopped and none is to be reported |
| Family.Tasks.Release | book-source-code/linux_kernel_012-third/kernel/exit.c:10-35 | the zombie leaves its slot and the list of its parent |
| Family.NothingPointsOutside | book-source-code/linux_kernel_012-third/kernel/exit.c:10-35 | no pointer leads to a task that was freed |
| Slices.PickIsLargest | book-source-code/linux_kernel_012-third/kernel/sched.c:68-80 | the loop finds the ready task with the largest slice, of several the one in the highest slot |
| Slices.RechargeKeeps | book-source-code/linux_kernel_012-third/kernel/sched.c:83-88 | a recharge gives every task at least its priority and stays below twice the priority |
| Slices.RechargeOrders | book-source-code/linux_kernel_012-third/kernel/sched.c:83-88 | half of the time left is carried over: of two tasks of equal priority the one with two ticks more left still has more |
| Slices.OneRecharge | book-source-code/linux_kernel_012-third/kernel/sched.c:68-89 | after one recharge the largest slice is positive |
| Slices.ScheduleChoosesLargest | book-source-code/linux_kernel_012-third/kernel/sched.c:68-90 | the idle task is chosen exactly when nobody is ready, and otherwise a ready task with time left that nobody exceeds |
| Slices.WaitingStep | book-source-code/linux_kernel_012-third/kernel/sched.c:263-266 | while a ready task with time left waits there is no recharge, and a charged tick comes off the time of the others |
| Slices.NoStarvation | book-source-code/linux_kernel_012-third/kernel/sched.c:68-90 | such a task waits for no more charged ticks than the others had left, and is chosen once they are used up |
| Scheduler.Tasks.Select | book-source-code/linux_kernel_012-third/kernel/sched.c:69-80 | the loop over the task table computes the choice |
| Scheduler.Tasks.RechargeAll | book-source-code/linux_kernel_012-third/kernel/sched.c:83-88 | the loop recharges every task but the idle one |
| Scheduler.Tasks.SwitchTasks | book-source-code/linux_kernel_012-third/kernel/sched.c:68-90 | the outer loop ends after one recharge at most, with the task the function says |
| Scheduler.Tasks.TimerTick | book-source-code/linux_kernel_012-third/kernel/sched.c:263-266 | a tick takes one from the running task, not below zero, and schedules only out of user mode |
| BufferIndex.FindAgreesWithScan | book-source-code/linux_kernel_012-third/fs/buffer.c:101-109 | searching one hash chain finds what a search through all buffers finds |
| BufferIndex.ReuseKeeps | book-source-code/linux_kernel_012-third/fs/buffer.c:165-173 | whichever buffer is taken, used, dirty or locked, the chains, the ring and uniqueness stay exact if the block was in no buffer |
| BufferIndex.ReuseFinds | book-source-code/linux_kernel_012-third/fs/buffer.c:165-173 | afterwards the new block is found in that buffer and every other one where it was, but for the one evicted |
| BufferIndex.ChooseStops | book-source-code/linux_kernel_012-third/fs/buffer.c:133-143 | the walk stops at the first spare buffer, and without one comes round to the head of the list |
| BufferIndex.ChooseIsLeast | book-source-code/linux_kernel_012-third/fs/buffer.c:124-143 | without a spare buffer the walk remembers the first of those nobody holds that are least bad, dirty being worse than locked |
| BufferIndex.ReuseOrders | book-source-code/linux_kernel_012-third/fs/buffer.c:67-99 | a buffer that is taken goes to the end of the free list, and the others keep their order |
| CacheLinks.RingUnlink | book-source-code/linux_kernel_012-third/fs/buffer.c:79-82 | two assignments take one buffer out of the circular list |
| CacheLinks.ChainUnlink | book-source-code/linux_kernel_012-third/fs/buffer.c:68-74 | the hash links without the buffer spell its chain without it |
| CacheLinks.ReuseLinked | book-source-code/linux_kernel_012-third/fs/buffer.c:67-99 | both functions together leave pointers that spell the cache with the buffer at the end of the ring and at the head of its chain |
| Buffers.BufferCache.constructor | book-source-code/linux_kernel_012-third/fs/buffer.c:202-236 | the first cache has all buffers on the ring in order and none on a chain |
| Buffers.BufferCache.RemoveFromQueues | book-source-code/linux_kernel_012-third/fs/buffer.c:67-83 | the pointers after removal |
| Buffers.BufferCache.InsertIntoQueues | book-source-code/linux_kernel_012-third/fs/buffer.c:85-99 | the pointers after insertion, for a buffer with and without a device |
| Buffers.BufferCache.FindBuffer | book-source-code/linux_kernel_012-third/fs/buffer.c:101-109 | the loop finds what the chain search finds |
| Buffers.BufferCache.ChooseVictim | book-source-code/linux_kernel_012-third/fs/buffer.c:133-143 | the loop over the ring computes the best buffer and where the walk ended |
| Buffers.BufferCache.TakeOver | book-source-code/linux_kernel_012-third/fs/buffer.c:165-173 | the buffer belongs to the new block, and the index is valid |
| Buffers.BufferCache.GetBlk | book-source-code/linux_kernel_012-third/fs/buffer.c:111-174 | everything up to the first sleep, with the reason for sleeping |
| Buffers.BufferCache.Awake | book-source-code/linux_kernel_012-third/fs/buffer.c:117-120 | after the sleep on a hit the block is looked at again |
| Buffers.BufferCache.AwakeWithVictim | book-source-code/linux_kernel_012-third/fs/buffer.c:150-173 | after the sleep on a victim its count and the index are looked at again, and the end of the walk is taken |
| Buffers.BufferCache.Brelse | book-source-code/linux_kernel_012-third/fs/buffer.c:176-184 | one reference less, and a panic exactly at a count of zero |
| Buffers.PiecesAreSteps | book-source-code/linux_kernel_012-third/fs/buffer.c:126-174 | what runs between two sleeps of getblk is a step of the cache machine: cache, references, requests and disk |
| Buffers.RetryIsRelease | book-source-code/linux_kernel_012-third/fs/buffer.c:111-122 | awake again a task keeps the buffer if it still holds the block, and otherwise gives up its reference and looks again |
| CacheRuns.StepKeepsIndex | book-source-code/linux_kernel_012-third/fs/buffer.c:64-174 | every step, also of evictions after a sleep, keeps the index exact |
| CacheRuns.TakenLongestAgo | book-source-code/linux_kernel_012-third/fs/buffer.c:67-99 | over any run the buffers taken longest ago come first on the free list |
| CacheRuns.StepIsGoodIff | book-source-code/linux_kernel_012-third/kernel/blk_drv/ll_rw_blk.c:73-130 | a step keeps the cache transparent, flags, locks and reference counts included, if and only if it takes no buffer, a spare one or a harmless one |
| CacheRuns.RunIsGoodIff | book-source-code/linux_kernel_012-third/fs/buffer.c:126-200 | the cache is transparent after every step of a run if and only if every eviction in it is harmless |
| CacheRuns.BreadShowsLastWrite | book-source-code/linux_kernel_012-third/fs/buffer.c:186-200 | whoever holds an up-to-date buffer sees the last write to the block he asked for; the second look never fails and brelse never panics |
| CacheRuns.SyncedDisk | book-source-code/linux_kernel_012-third/fs/buffer.c:24-36 | with nothing dirty and no request under way the disk has every last write |
| CacheRuns.EvictionIsSafeIff | book-source-code/linux_kernel_012-third/fs/buffer.c:165-168 | giving a buffer to another block keeps the cache transparent if and only if nobody holds it, it is not locked, and what was changed in it is on the disk |
| CacheRuns.OnlySparesAreSafe | book-source-code/linux_kernel_012-third/fs/buffer.c:124-143 | whatever the disk has, that is so if and only if b_count is 0 and neither b_dirt nor b_lock is set |
| CacheRuns.MissIsSafeIff | book-source-code/linux_kernel_012-third/fs/buffer.c:126-174 | the exact condition for a miss, with and without a sleep before |
| CacheRuns.MissTakes | book-source-code/linux_kernel_012-third/fs/buffer.c:133-166 | a miss takes the first spare buffer, and the head of the free list if there is none |
| CacheRuns.DirtyHeadIsLost | book-source-code/linux_kernel_012-third/fs/buffer.c:165-168 | a case in which the head is dirty and its contents are lost |
| CacheRuns.HeldHeadIsStolen | book-source-code/linux_kernel_012-third/fs/buffer.c:165-168 | a case in which the head is in use and its holder is left with another block |
| Elevator.InsertKeepsOneDescent | book-source-code/linux_kernel_012-third/kernel/blk_drv/ll_rw_blk.c:54-69 | a request with a key of its own never adds a second descent |
| Elevator.RestKeepsOneDescent | book-source-code/linux_kernel_012-third/kernel/blk_drv/ll_rw_blk.c:128-129 | completing the head keeps one descent at most |
| Elevator.AddKeeps | book-source-code/linux_kernel_012-third/kernel/blk_drv/ll_rw_blk.c:73-106 | queuing a request for a locked buffer that has none keeps slots, queues, keys and order |
| Elevator.DoneKeeps | book-source-code/linux_kernel_012-third/kernel/blk_drv/ll_rw_blk.c:115-130 | completion frees the slot and the lock and keeps the rest |
| Elevator.FewWrites | book-source-code/linux_kernel_012-third/kernel/blk_drv/ll_rw_blk.c:82-89 | at most 21 of the 32 requests are writes |
| Elevator.QueuesDisjoint | book-source-code/linux_kernel_012-third/kernel/blk_drv/ll_rw_blk.c:39-71 | no slot is in two queues |
| Elevator.RunsSweep | book-source-code/linux_kernel_012-third/kernel/blk_drv/ll_rw_blk.c:39-130 | after any run every queue has one descent at most, the used slots are exactly those in the queues, and at most 21 are writes |
| Elevator.TwoSweeps | book-source-code/linux_kernel_012-third/kernel/blk_drv/blk.h:20-23 | after any run every queue is at most two stretches; in each no read is behind a write, device numbers do not fall among reads or among writes, and sectors rise on one device |
| Elevator.LandsBetween | book-source-code/linux_kernel_012-third/kernel/blk_drv/ll_rw_blk.c:54-69 | a request whose sector lies between two neighbours of the first stretch lands between them |
| Elevator.LandsBetweenLater | book-source-code/linux_kernel_012-third/kernel/blk_drv/ll_rw_blk.c:54-69 | so it does in the second stretch if the head of the queue has passed it |
| Elevator.LandsAtEnd | book-source-code/linux_kernel_012-third/kernel/blk_drv/ll_rw_blk.c:54-69 | above the last sector, or below the first one, a request goes to the end of a single stretch |
| Elevator.LockedFor | book-source-code/linux_kernel_012-third/kernel/blk_drv/ll_rw_blk.c:73-130 | after any run a buffer is locked if and only if one request for it is queued or its task sleeps until a slot is free |
| Elevator.AddLinked | book-source-code/linux_kernel_012-third/kernel/blk_drv/ll_rw_blk.c:47-69 | the pointer assignments spell the queue with the request inserted, and no other queue changes |
| BlockRequests.BlockDevices.FindSlot | book-source-code/linux_kernel_012-third/kernel/blk_drv/ll_rw_blk.c:82-89 | the highest free slot, for writes among the first 21 |
| BlockRequests.BlockDevices.Walk | book-source-code/linux_kernel_012-third/kernel/blk_drv/ll_rw_blk.c:54-66 | the walk stops where the function says; before a higher sector of the first stretch, by the numbers of its neighbours |
| BlockRequests.BlockDevices.AddRequest | book-source-code/linux_kernel_012-third/kernel/blk_drv/ll_rw_blk.c:39-71 | the request is linked in at its place; between the neighbours of the first stretch that its sector lies between |
| BlockRequests.BlockDevices.MakeRequest | book-source-code/linux_kernel_012-third/kernel/blk_drv/ll_rw_blk.c:73-106 | nothing to do, no slot and queued happen exactly under their conditions; asleep for a slot the buffer stays locked |
| BlockRequests.BlockDevices.Retry | book-source-code/linux_kernel_012-third/kernel/blk_drv/ll_rw_blk.c:81-106 | the second try of a task that slept, with its buffer locked all the time |
| BlockRequests.BlockDevices.EndRequest | book-source-code/linux_kernel_012-third/kernel/blk_drv/ll_rw_blk.c:115-130 | the head of the queue is done and its buffer unlocked |
| Consoles.WindowUp | book-source-code/linux_kernel_012-third/kernel/chr_drv/console.c:90-133 | seen through the window, which may have moved, a block move in video memory is a block move on the screen |
| Consoles.Console.constructor | book-source-code/linux_kernel_012-third/kernel/chr_drv/console.c:365-429 | the screen after start: cursor, region, attributes and the name of the adapter |
| Consoles.Console.CopyUp | book-source-code/linux_kernel_012-third/kernel/chr_drv/console.c:97-107 | the repeated move copies a block onto one below it, also when they overlap |
| Consoles.Console.CopyDown | book-source-code/linux_kernel_012-third/kernel/chr_drv/console.c:139-149 | the same backwards |
| Consoles.Console.Advance | book-source-code/linux_kernel_012-third/kernel/chr_drv/console.c:91-120 | advancing the origin, and starting again at the base, both scroll the grid by one row |
| Consoles.Console.CopyRegion | book-source-code/linux_kernel_012-third/kernel/chr_drv/console.c:121-132 | copying a region scrolls the grid by one row |
| Consoles.Console.ScrUp | book-source-code/linux_kernel_012-third/kernel/chr_drv/console.c:90-133 | all three ways of scrolling do the same to the grid |
| Consoles.Console.ScrDown | book-source-code/linux_kernel_012-third/kernel/chr_drv/console.c:135-150 | scrolling back opens a blank row at the top of the region |
| Consoles.Console.GotoXY | book-source-code/linux_kernel_012-third/kernel/chr_drv/console.c:51-58 | moves the cursor exactly to places on the grid or behind a row |
| Consoles.Console.Lf | book-source-code/linux_kernel_012-third/kernel/chr_drv/console.c:161-168 | the next row, or a scroll at the bottom of the region |
| Consoles.Console.Ri | book-source-code/linux_kernel_012-third/kernel/chr_drv/console.c:152-159 | the row before, or a scroll at the top of the region |
| Consoles.Console.Del | book-source-code/linux_kernel_012-third/kernel/chr_drv/console.c:175-181 | erases the cell before the cursor |
| Consoles.Console.Show | book-source-code/linux_kernel_012-third/kernel/chr_drv/console.c:444-455 | a printable character goes to the cursor's cell, after a wrap if need be |
| Consoles.Console.HorizontalTab | book-source-code/linux_kernel_012-third/kernel/chr_drv/console.c:472-482 | the next multiple of eight, on the next row if beyond the last column |
| Consoles.Console.CsiJ | book-source-code/linux_kernel_012-third/kernel/chr_drv/console.c:183-209 | blanks the part of the screen the parameter names |
| Consoles.Console.CsiK | book-source-code/linux_kernel_012-third/kernel/chr_drv/console.c:211-239 | blanks the part of the row the parameter names |
| Consoles.Console.CsiM | book-source-code/linux_kernel_012-third/kernel/chr_drv/console.c:241-265 | applies all parameters in order to the attributes |
| Consoles.Console.RemoveChar | book-source-code/linux_kernel_012-third/kernel/chr_drv/console.c:267-278 | the rest of the row moves left by one |
| Consoles.Console.AddChar | book-source-code/linux_kernel_012-third/kernel/chr_drv/console.c:292-303 | the rest of the row moves right by one |
| Consoles.Console.RemoveLine | book-source-code/linux_kernel_012-third/kernel/chr_drv/console.c:280-290 | the rows below move up, and the region stays as it was |
| Consoles.Console.AddLine | book-source-code/linux_kernel_012-third/kernel/chr_drv/console.c:305-315 | the rows below move down, and the region stays as it was |
| Consoles.Console.CsiEdit | book-source-code/linux_kernel_012-third/kernel/chr_drv/console.c:317-351 | the edit is repeated as often as the clamped parameter says |
| Consoles.Console.Escaped | book-source-code/linux_kernel_012-third/kernel/chr_drv/console.c:484-522 | the character after ESC |
| Consoles.Console.Bracketed | book-source-code/linux_kernel_012-third/kernel/chr_drv/console.c:523-534 | the character after ESC [ with all parameters cleared |
| Consoles.Console.Collect | book-source-code/linux_kernel_012-third/kernel/chr_drv/console.c:535-551 | parameters with 32-bit overflow, and the end of a sequence |
| Consoles.Console.Controlled | book-source-code/linux_kernel_012-third/kernel/chr_drv/console.c:552-626 | every control function does to the grid what the terminal says; SequenceLaws has what that is in numbers |
| Consoles.Console.PutChar | book-source-code/linux_kernel_012-third/kernel/chr_drv/console.c:440-638 | one character in any state |
| Consoles.Console.ConWrite | book-source-code/linux_kernel_012-third/kernel/chr_drv/console.c:434-643 | any stream of characters does to the grid what the terminal says, every store stays in video memory and the cursor keeps its address |
| Consoles.Console.SameCell | book-source-code/linux_kernel_012-third/kernel/chr_drv/console.c:641-641 | the last gotoxy moves nothing |
| ScreenLaws.ScrollUpRows | book-source-code/linux_kernel_012-third/kernel/chr_drv/console.c:90-133 | cell by cell: row top is dropped, the rows below move up, row bottom - 1 is blank |
| ScreenLaws.ScrollDownRows | book-source-code/linux_kernel_012-third/kernel/chr_drv/console.c:135-150 | cell by cell: the rows move down and row top is blank |
| ScreenLaws.EditsAddUp | book-source-code/linux_kernel_012-third/kernel/chr_drv/console.c:317-351 | n edits are one block move by n |
| ScreenLaws.DeleteAfterInsert | book-source-code/linux_kernel_012-third/kernel/chr_drv/console.c:267-315 | deleting what was inserted restores everything but what was pushed over the end |
| ScreenLaws.DeafIff | book-source-code/linux_kernel_012-third/kernel/chr_drv/console.c:442-638 | nothing written has any effect in exactly the states that no branch handles |
| ScreenLaws.BecomesDeaf | book-source-code/linux_kernel_012-third/kernel/chr_drv/console.c:484-531 | which characters after ESC and after ESC [ lead to these states, and that no others do |
| ScreenLaws.StreamDeafensIff | book-source-code/linux_kernel_012-third/kernel/chr_drv/console.c:440-638 | a stream of any length leads there if and only if one of the four sequences starts in it where no other is under way |
| ScreenLaws.TextLands | book-source-code/linux_kernel_012-third/kernel/chr_drv/console.c:444-455 | text that fits lands behind the cursor in order and changes nothing else |
| ScreenLaws.RegionShields | book-source-code/linux_kernel_012-third/kernel/chr_drv/console.c:90-181 | text without escapes never changes a row outside the scroll region |
| ScreenLaws.DigitsRead | book-source-code/linux_kernel_012-third/kernel/chr_drv/console.c:540-543 | reading decimal digits is the inverse of writing them |
| ScreenLaws.AddressLands | book-source-code/linux_kernel_012-third/kernel/chr_drv/console.c:585-589 | ESC [ row ; col H reaches every cell of the grid |
| ScreenLaws.LineAddressIsOff | book-source-code/linux_kernel_012-third/kernel/chr_drv/console.c:581-584 | ESC [ n d goes one row too far, for every n with 0 and n beyond the last row, with the exact condition under which it is right |
| ScreenLaws.LineAddressOmitted | book-source-code/linux_kernel_012-third/kernel/chr_drv/console.c:581-584 | without a parameter the row stays, which is right on row 1 only |
| SequenceLaws.CursorUp | book-source-code/linux_kernel_012-third/kernel/chr_drv/console.c:557-560 | ESC [ n A goes n rows up, and nowhere when there are fewer; the difference is taken in 32 bits |
| SequenceLaws.CursorDown | book-source-code/linux_kernel_012-third/kernel/chr_drv/console.c:561-564 | ESC [ n B and e go n rows down, and nowhere when that is off the grid |
| SequenceLaws.CursorRight | book-source-code/linux_kernel_012-third/kernel/chr_drv/console.c:565-568 | ESC [ n C and a go n columns right, to the place just behind the row at most |
| SequenceLaws.CursorLeft | book-source-code/linux_kernel_012-third/kernel/chr_drv/console.c:569-572 | ESC [ n D goes n columns left, and nowhere when there are fewer |
| SequenceLaws.NextLines | book-source-code/linux_kernel_012-third/kernel/chr_drv/console.c:573-576 | ESC [ n E goes to column 0, n rows down, and nowhere when there is no such row |
| SequenceLaws.PreviousLines | book-source-code/linux_kernel_012-third/kernel/chr_drv/console.c:577-580 | ESC [ n F goes to column 0, n rows up, and nowhere when there is no such row |
| SequenceLaws.ColumnReached | book-source-code/linux_kernel_012-third/kernel/chr_drv/console.c:553-556 | ESC [ n G and ` go to column n, counted from 1 |
| SequenceLaws.PlaceReached | book-source-code/linux_kernel_012-third/kernel/chr_drv/console.c:585-589 | ESC [ row ; col H and f go exactly there, counted from 1, and nowhere when it is off the grid |
| SequenceLaws.OmittedIsZero | book-source-code/linux_kernel_012-third/kernel/chr_drv/console.c:540-552 | a sequence without a parameter means what it means with 0 |
| SequenceLaws.CursorSaved | book-source-code/linux_kernel_012-third/kernel/chr_drv/console.c:620-622 | ESC [ s and ESC 7 remember the place of the cursor |
| SequenceLaws.CursorRestored | book-source-code/linux_kernel_012-third/kernel/chr_drv/console.c:623-625 | ESC [ u and ESC 8 go to the remembered place |
| SequenceLaws.SaveThenRestore | book-source-code/linux_kernel_012-third/kernel/chr_drv/console.c:502-507 | whatever text is written in between, saving and restoring returns to the same place |
| SequenceLaws.LineFeeds | book-source-code/linux_kernel_012-third/kernel/chr_drv/console.c:459-460 | line feed, vertical tab, form feed and ESC D go to the next row, or scroll cell by cell at the end of the region |
| SequenceLaws.ReverseLineFeeds | book-source-code/linux_kernel_012-third/kernel/chr_drv/console.c:493-495 | ESC M goes to the row before, or scrolls back cell by cell at the top of the region |
| SequenceLaws.NextLine | book-source-code/linux_kernel_012-third/kernel/chr_drv/console.c:490-492 | ESC E goes to the beginning of the next row, and never scrolls |
| SequenceLaws.BackInRow | book-source-code/linux_kernel_012-third/kernel/chr_drv/console.c:461-471 | carriage return goes to column 0, backspace one column back |
| SequenceLaws.Deletes | book-source-code/linux_kernel_012-third/kernel/chr_drv/console.c:463-465 | delete goes one column back and blanks that cell only |
| SequenceLaws.TabStops | book-source-code/linux_kernel_012-third/kernel/chr_drv/console.c:472-482 | a tab goes to the next multiple of eight, and beyond the row to the next one |
| SequenceLaws.CharacterShows | book-source-code/linux_kernel_012-third/kernel/chr_drv/console.c:444-455 | a character shows with the attributes at the cursor and nowhere else; behind a row it acts like carriage return and line feed first |
| SequenceLaws.DisplayErased | book-source-code/linux_kernel_012-third/kernel/chr_drv/console.c:590-592 | which cells ESC [ p J blanks, for every p |
| SequenceLaws.LineErased | book-source-code/linux_kernel_012-third/kernel/chr_drv/console.c:593-595 | which cells ESC [ p K blanks, for every p |
| SequenceLaws.LinesOpened | book-source-code/linux_kernel_012-third/kernel/chr_drv/console.c:596-598 | ESC [ n L cell by cell: n rows, at least one, open at the cursor |
| SequenceLaws.LinesDropped | book-source-code/linux_kernel_012-third/kernel/chr_drv/console.c:599-601 | ESC [ n M cell by cell: n rows, at least one, are dropped from the cursor on |
| SequenceLaws.CharsDropped | book-source-code/linux_kernel_012-third/kernel/chr_drv/console.c:602-604 | ESC [ n P cell by cell: n characters, at least one, are dropped from the cursor on |
| SequenceLaws.CharsOpened | book-source-code/linux_kernel_012-third/kernel/chr_drv/console.c:605-607 | ESC [ n @ cell by cell: n blanks, at least one, open at the cursor |
| SequenceLaws.RenditionShows | book-source-code/linux_kernel_012-third/kernel/chr_drv/console.c:608-610 | what every parameter of ESC [ m does to the foreground and the background bits, and that nothing else changes |
| SequenceLaws.RenditionsInOrder | book-source-code/linux_kernel_012-third/kernel/chr_drv/console.c:241-265 | two parameters do what two sequences do one after the other |
| SequenceLaws.RegionSet | book-source-code/linux_kernel_012-third/kernel/chr_drv/console.c:611-619 | ESC [ first ; last r makes these rows the region if they are one, and changes nothing otherwise |
| SequenceLaws.SettingsMade | book-source-code/linux_kernel_012-third/kernel/chr_drv/console.c:517-520 | ESC c makes the whole screen the region; ESC P S makes the attributes those of blank cells |
| SequenceLaws.Ignored | book-source-code/linux_kernel_012-third/kernel/chr_drv/console.c:552-627 | every other character ends a sequence without any effect |
| SequenceLaws.WordBytes | book-source-code/linux_kernel_012-third/kernel/chr_drv/console.c:452-453 | the low byte of a cell is the character and the high byte the attributes |
| LineEdit.CookIsSound | book-source-code/linux_kernel_012-third/kernel/chr_drv/tty_io.c:148-244 | one turn keeps data equal to the number of line ends in the ring and never overflows it |
| LineEdit.RunIsSound | book-source-code/linux_kernel_012-third/kernel/chr_drv/tty_io.c:109-244 | so does every run of keys, turns and reads |
| LineEdit.CookEditsIff | book-source-code/linux_kernel_012-third/kernel/chr_drv/tty_io.c:166-195 | a turn edits the text like a line editor if and only if it does not reach what readers took |
| LineEdit.RingIsEditedTextIff | book-source-code/linux_kernel_012-third/kernel/chr_drv/tty_io.c:109-244 | over any run what was taken and then the ring is the edited text of all that was consumed if and only if no erase or kill reached what was taken |
| LineEdit.TakenPartStays | book-source-code/linux_kernel_012-third/kernel/chr_drv/tty_io.c:125-138 | a case in which a reader takes an unfinished line and erase no longer reaches it |
| LineEdit.ReaderFindsLine | book-source-code/linux_kernel_012-third/kernel/chr_drv/tty_io.c:119-123 | a canonical reader waits exactly while the ring is empty or has no line end and the read ring is not full |
| LineEdit.PutAllWraps | book-source-code/linux_kernel_012-third/kernel/chr_drv/tty_io.c:53-56 | of the characters put into a ring without a look only the last, modulo 1024, are left |
| LineEdit.WriteCompleteIff | book-source-code/linux_kernel_012-third/kernel/chr_drv/tty_io.c:72-107 | a write reaches the console complete if and only if its translation is shorter than 1024 |
| TypingLaws.EnterEndsLine | book-source-code/linux_kernel_012-third/kernel/chr_drv/tty_io.c:154-156 | with ICRNL the code 13 puts a newline into the ring, counts a line and echoes 10, 13 |
| TypingLaws.ReturnDropped | book-source-code/linux_kernel_012-third/kernel/chr_drv/tty_io.c:157-158 | with IGNCR and without ICRNL the code 13 changes nothing |
| TypingLaws.CharacterTyped | book-source-code/linux_kernel_012-third/kernel/chr_drv/tty_io.c:160-241 | every character that is not special joins the line, in lower case with IUCLC and with 10 read as 13 with INLCR; whether it is counted, and what is echoed |
| TypingLaws.LineKilled | book-source-code/linux_kernel_012-third/kernel/chr_drv/tty_io.c:167-180 | kill cuts the text behind the last newline or end of file |
| TypingLaws.CharacterErased | book-source-code/linux_kernel_012-third/kernel/chr_drv/tty_io.c:182-195 | erase takes one character back and echoes one rubout, or two for a control character; at the beginning of a line it does nothing |
| TypingLaws.KillErases | book-source-code/linux_kernel_012-third/kernel/chr_drv/tty_io.c:167-195 | the ring and the echo after a kill are those after an erase and then a kill |
| TypingLaws.NothingKilled | book-source-code/linux_kernel_012-third/kernel/chr_drv/tty_io.c:167-180 | at the beginning of a line kill does nothing |
| TypingLaws.OutputHeld | book-source-code/linux_kernel_012-third/kernel/chr_drv/tty_io.c:197-205 | stop stops the output, start lets it go on, and neither joins the line |
| TypingLaws.SignalSent | book-source-code/linux_kernel_012-third/kernel/chr_drv/tty_io.c:208-222 | the interrupt, quit and suspend characters send a signal and do not join the line |
| TypingLaws.CharacterSent | book-source-code/linux_kernel_012-third/kernel/chr_drv/tty_io.c:82-102 | what reaches the console for each character with OPOST, OCRNL, ONLRET, ONLCR and OLCUC |
| Ttys.Queue.Putch | book-source-code/linux_kernel_012-third/kernel/chr_drv/tty_io.c:53-56 | appends, or empties a full ring |
| Ttys.Queue.Getch | book-source-code/linux_kernel_012-third/kernel/chr_drv/tty_io.c:58-62 | takes the oldest character through the wrap-around |
| Ttys.Queue.Empty | book-source-code/linux_kernel_012-third/kernel/chr_drv/tty_io.c:64-66 | head and tail agree exactly when nothing is in the ring |
| Ttys.Queue.Full | book-source-code/linux_kernel_012-third/include/linux/tty.h:18-19 | no place is left exactly when 1023 characters are in the ring |
| Ttys.Line.KillLine | book-source-code/linux_kernel_012-third/kernel/chr_drv/tty_io.c:167-180 | the unfinished line goes, with the rubouts for all of it |
| Ttys.Line.Turn | book-source-code/linux_kernel_012-third/kernel/chr_drv/tty_io.c:151-242 | one turn of the loop takes one key as the line editor does; TypingLaws has what that is by character codes |
| Ttys.Line.CopyToCooked | book-source-code/linux_kernel_012-third/kernel/chr_drv/tty_io.c:148-244 | the loop takes keys as the line editor does while there is something to read and room |
| Ttys.Line.TakeChars | book-source-code/linux_kernel_012-third/kernel/chr_drv/tty_io.c:125-138 | the characters up to the count, an end of file or the end of the ring |
| Ttys.Line.TtyRead | book-source-code/linux_kernel_012-third/kernel/chr_drv/tty_io.c:109-146 | what a call delivers between two sleeps, and when it is done |
| Ttys.Line.TtyWrite | book-source-code/linux_kernel_012-third/kernel/chr_drv/tty_io.c:72-107 | the loop with its cr_flag gives the console the translation of the write, as far as the ring keeps it |
| Pipes.Pipe.TakeSome | book-source-code/linux_kernel_012-third/fs/pipe.c:22-33 | one turn takes the oldest bytes in order |
| Pipes.Pipe.ReadPipe | book-source-code/linux_kernel_012-third/fs/pipe.c:10-37 | the oldest bytes, as many as asked for or there are, and how the call goes on |
| Pipes.Pipe.PutSome | book-source-code/linux_kernel_012-third/fs/pipe.c:51-63 | one turn appends a run of bytes |
| Pipes.Pipe.WritePipe | book-source-code/linux_kernel_012-third/fs/pipe.c:39-66 | as many bytes as fit below 4096, and how the call goes on |
| Pipes.TakeRun | book-source-code/linux_kernel_012-third/fs/pipe.c:22-33 | taking a run up to the end of the page |
| Pipes.PutRun | book-source-code/linux_kernel_012-third/fs/pipe.c:51-63 | putting a run up to the end of the page |
| Pipes.FirstInFirstOut | book-source-code/linux_kernel_012-third/fs/pipe.c:10-66 | on the stream that a pipe stands for, what was read and then the ring is what was there and what was written |
| Pipes.Session | book-source-code/linux_kernel_012-third/fs/pipe.c:10-66 | any run of reads, writes and departures on a real pipe is first in first out, never holds more than 4095 bytes, and ends every call as the stream says |
| Arguments.FlatAt | book-source-code/linux_kernel_012-third/fs/exec.c:66-101 | where string i lies among all the strings |
| Arguments.PutLong | book-source-code/linux_kernel_012-third/fs/exec.c:24-26 | a long word is stored as four bytes, the low one first, is the long word read, and no other byte changes |
| Arguments.CStringIs | book-source-code/linux_kernel_012-third/fs/exec.c:74-76 | reading up to the zero gives the string |
| ExecArgs.ArgPages.PageFor | book-source-code/linux_kernel_012-third/fs/exec.c:85-95 | the page of a byte, new pages reading as zero; none only when there are fewer than 32 frames |
| ExecArgs.ArgPages.CopyString | book-source-code/linux_kernel_012-third/fs/exec.c:83-100 | one string lands below the last, across page boundaries; it runs below the first page only if it does not fit |
| ExecArgs.ArgPages.CopyStrings | book-source-code/linux_kernel_012-third/fs/exec.c:52-107 | strings that fit land in order right below p and no other byte changes; an index outside the pages is reached only by strings that do not fit |
| ExecArgs.StringsFitIff | book-source-code/linux_kernel_012-third/fs/exec.c:78-95 | every byte has its place in the pages if and only if the strings are no longer than the room below p |
| ExecArgs.OneByteTooLong | book-source-code/linux_kernel_012-third/fs/exec.c:78-81 | one byte too much is not refused, and its page does not exist |
| ExecArgs.UserSpace.ChangeLdt | book-source-code/linux_kernel_012-third/fs/exec.c:109-129 | byte q of the pages becomes byte q of the last 32 pages below the library |
| ExecArgs.UserSpace.PastString | book-source-code/linux_kernel_012-third/fs/exec.c:29-29 | the scan ends behind the zero of its string |
| ExecArgs.UserSpace.FillTable | book-source-code/linux_kernel_012-third/fs/exec.c:27-38 | the four bytes of every entry, low byte first, point to the strings in order, the last are null, and the strings stay |
| ExecArgs.UserSpace.CreateTables | book-source-code/linux_kernel_012-third/fs/exec.c:14-40 | argc, two adjoining tables and what they lead to, every word with its low byte first; both tables end below all the strings |
| ExecArgs.Execve | book-source-code/linux_kernel_012-third/fs/exec.c:192-215 | for any arguments and environment: the new program finds exactly these, above its tables; each way of failing names its cause, and with 32 frames all that fits below the last byte succeeds |

## Left out

- Files: I/O errors, sleeps in `bread` within one file operation, and inode numbers and directories are not modelled; blocks are read and written at once.
- Truncation.Truncate: the answers of the busy test are a finite list given in advance, after which no block is busy, since the source retries without end while a block stays busy.
- Memory: stores are 32-bit words; the low memory of task 0 is constant, and the page directory is kept apart from frame 0.
- CopyOnWrite.UnWpPage: ends with `ok` false when it needs a frame and none is free, where the source goes on with frame 0, which holds the page directory.
- Faults.TryToShare: ends with `ok` false when it needs a page table and no frame is free, where the source goes on after `oom`.
- Missing pages: pages read from the executable and swapping are not modelled; a missing page appears as zeros. What `do_no_page` does after a successful share is stated in Faults.PutOverSharedIff and is not part of the runs.
- Family.Tasks.Exit: leaves out the signals to parents, process groups and sessions, and files; the end of task 1 is Family.Tasks.ExitFirst.
- Family.Tasks.WaitPass: is one pass over the children; the sleep between passes, signals and times are left out, and so is the search for a free pid.
- Family.Tasks.Release: does not model a task that releases itself or one that is not in the table, which the source reports.
- Scheduler.Tasks.SwitchTasks: starts after the look at signals, alarms and timeouts, which appear as wake-ups; timers are left out.
- Slices.NoStarvation: is about runs without forks and exits, and counts the ticks that take time from a task; a task in kernel mode with an empty slice is not preempted.
- Buffers.BufferCache.Claim: the 8-bit use count of a buffer is not wrapped.
- CacheRuns.BreadShowsLastWrite: assumes no I/O errors, that only the holder of a buffer has it read in, and that the evictions of the run are harmless, which CacheRuns.RunIsGoodIff shows to be necessary.
- Buffers: the fields of a buffer head other than its links are a sequence of records that the methods reassign.
- BlockRequests.BlockDevices.AddRequest: models requests with a buffer only; no caller makes others. Block numbers are below 2^31, and the start of the transfer is left to the driver.
- Consoles.Console.Escaped: leaves out ESC Z, which answers on the keyboard queue; the hardware cursor and origin registers are left out.
- Consoles.Console.constructor: asks that the start position be on the screen; otherwise the source keeps an address of 0.
- Ttys.Line.CopyToCooked: sends signals by recording their characters; wake-ups are left to the wait queues.
- ExecArgs.ArgPages.CopyStrings: takes the strings as values, since only the copying from user space without kernel pointers is used.
- ExecArgs.UserSpace.ChangeLdt: writes the new address space as flat bytes and does not model the lack of a frame for its page tables, whose failure the source ignores.
- Pipes.Pipe.WritePipe: does not raise the signal for a pipe without readers.
- Boot code, descriptor tables, drivers, the keyboard, the file system above inodes and the system calls that only read a field.
