# Proofs about KUDOS, YAMS and the smaller OSM exercises

A Dafny model of the stateful parts of the repository, with proofs of what they promise. `dafny verify dfyconfig.toml`
checks all of it. Source paths below are relative to the root of the repository.

**TFS, the on-disk filesystem** (`words.dfy`, `bitmap.dfy`, `libc.dfy`, `tfs_layout.dfy` to `tfs_runs.dfy`,
`tfs_ids.dfy`, `tfs_format.dfy`, `tfs.dfy`).
A volume is a sequence of 512-byte blocks: header, allocation bitmap, directory, then inodes and data. `TfsLayout`
says when a volume is well formed (names distinct, every block in one place, bitmap exact) and which map from names to
byte strings it stands for. Each operation has a plan, the list of block writes it makes. `TfsCreate`, `TfsRemove` and
`TfsWrite` prove that a whole plan does to the volume what the call does to the map; `TfsRuns` extends this to runs
of calls by name and shows what any prefix of a plan leaves intact, `TfsIds` to runs that keep the ids of open files;
`TfsSpace` counts blocks, and `TfsFormat` is the volume as tfstool formats it. Class `TfsDriver.Tfs` is the driver
itself, on block buffers and a disk whose requests may fail at any time: each method performs its plan or a prefix of it.

**Threads, sleep queue and semaphores** (`threads.dfy`, `thread_steps.dfy`, `thread_table.dfy`, `semaphores.dfy`,
`semaphore_steps.dfy`, `semaphore_table.dfy`).
`Threads` is a step relation for any number of CPUs and threads whose steps are the regions under `sleepq_slock` and
`thread_table_slock`; an invariant is kept by every step. Wakes come from threads and from interrupt handlers, which run
wherever interrupts are enabled: also between sleepq_add and the switch away. Class `ThreadTable` is the C tables: one
`next` field threads the ready list and all hash chains, and every method is proved to be its step. `ThreadSteps` says
what single steps do to a thread and what follows over runs: its life cycle, the row of a finished thread, turns on the
ready list. `Semaphores` puts semaphore operations on top, with other CPUs' thread actions in between, and records which
threads are inside; `SemaphoreSteps` counts its calls.

**User heap** (`allocator.dfy`, `heap.dfy`). A tiling of the heap by free and live blocks, and class `Heap`, words of
memory with headers and an address-sorted free list that encode the tiling.

**YAMS** (`yams_tlb.dfy`, `yams_memory.dfy`, `yams_llsc.dfy`, `io_table.dfy`). TLB instructions and translation on
bit-vectors, the unaligned loads and stores through translation, load-linked/store-conditional on virtual addresses over
interleaved CPUs, and the I/O dispatch table.

**VFS** (`vfs_calls.dfy`, `vfs_shutdown.dfy`, `vfs_returns.dfy`, `vfs_tables.dfy`). `VfsCalls` lists the steps of each
call that touch what calls share; `VfsShutdown` is the step relation for any number of calls at once, with mounting, open
files and the one shutdown; `VfsReturns` says which calls return. `VfsTables` is the two tables as a class.

**Array and text algorithms** (`getopt.dfy`, `priority_queue.dfy`, `printing.dfy`).

Where the code and its documentation differ the model follows the code:

- `stringcopy` promises zero padding but never advances its target (libc.c:124-127). `Libc.CopyPadsIff` says exactly when
  the padding is there all the same; a directory entry may hold old bytes behind its name, which no other code reads.
- `malloc` wraps for requests near 2^32 (lib.c:743-755). `Allocator.TestsExactIff` gives the exact condition.
- `realloc` copies `size` bytes even when the old block is smaller (lib.c:849); only the common prefix is claimed.
- `scheduler_current_thread` can name one thread on two CPUs for a moment (scheduler.c:179-181), so the claim that no
  thread is current twice is proved for what a CPU runs or is about to run, and `Threads.CurrentTwiceHappens` shows why.
- `vfs_mount` compares the whole new name with stored names that are cut to 15 characters, and also with names of
  unmounted rows (vfs.c:411-421). `VfsTables.MountApartIff` gives the exact condition.
- TLBP keeps the last match where translation uses the first (cpu.c:1016-1025, cp0.c:211-240).
  `YamsTlb.ProbeAgreesIff` gives the exact condition, and `YamsTlb.ResetDisagrees` a state in which they differ.
- `phys_addr` puts the I/O area at physical address 0x10000000 and up (memory.c:61-63). With more than 256 MB of memory an
  LL there links a word of main memory; `YamsLlSc.AliasCommits` is such a run, `YamsLlSc.AtomicIff` the exact condition.
- tfs_unmount is to wait for the current operations (tfs.c:152-155), but a vfs_read fetches its filesystem before it locks
  it. When the file is closed and the filesystem unmounted in between, it waits for ever, and so does vfs_deinit:
  `VfsReturns.ReaderStranded` is such a run, `VfsReturns.StrandsIff` the exact condition.
- vxnprintf promises the number of characters written (xprintf.c:199-203), but returns -1 when the text fills the buffer.
- The bouncer's shutdown stops when queue_pop fails on an empty queue (bouncer.c:68), but queue_pop waits instead.

## Model

| member | source | states |
|---|---|---|
| TfsRuns.RunRefines | OSM/Assignments/Fifth_Assignment/kudos/kudos/fs/tfs.c:189-760 | Over any sequence of create, remove, write and read calls without I/O errors, on any well-formed volume of any size, the disk stands for exactly the map that the same calls make of a map from names to byte strings, and every reply is the same. |
| TfsRuns.ExecRefines | OSM/Assignments/Fifth_Assignment/kudos/kudos/fs/tfs.c:189-760 | One call on the disk, abstracted, is the call on the map: same new map, same status, same bytes returned. |
| TfsIds.IdRunRefines | OSM/Assignments/Fifth_Assignment/kudos/kudos/fs/tfs.c:189-760 | Over any sequence of calls without I/O errors in which files are read and written through ids that tfs_open returned, kept over any other calls until the file is removed, the disk is the map that the same calls make, an id standing for the name it was opened under; every reply is one the map may give. |
| TfsIds.ExecMatches | OSM/Assignments/Fifth_Assignment/kudos/kudos/fs/tfs.c:189-760 | One such call on the disk is the call on the map. |
| TfsIds.ExecTracked | OSM/Assignments/Fifth_Assignment/kudos/kudos/fs/tfs.c:189-760 | Every call keeps each held id the inode block of its file; removing a file retires the ids held for it and no other. |
| TfsIds.OpenMatches | OSM/Assignments/Fifth_Assignment/kudos/kudos/fs/tfs.c:189-220 | Opening a file again returns the id already held for it, and never an id held for another file. |
| TfsFormat.FromEmpty | OSM/Assignments/Fifth_Assignment/kudos/kudos/util/tfstool.c:133-189 | From a freshly formatted disk on, any sequence of calls is the same sequence of calls on an empty map. |
| TfsFormat.FormattedIsEmpty | OSM/Assignments/Fifth_Assignment/kudos/kudos/util/tfstool.c:133-189 | What tfstool writes, on a host of either byte order and for any size it accepts, is well formed and holds no file, as far as the kernel looks at it. |
| TfsFormat.CreateVol | OSM/Assignments/Fifth_Assignment/kudos/kudos/util/tfstool.c:133-189 | Refuses fewer than 3 blocks; else writes header, bitmap and zeros, the same bytes on a host of either byte order. |
| TfsFormat.ToolBitmapSet | OSM/Assignments/Fifth_Assignment/kudos/kudos/util/tfstool.c:611-627 | tfstool's own bitmap_set, with htonl and ntohl, leaves the bytes that the kernel's leaves, on a host of either byte order. |
| TfsCreate.CreateRefines | OSM/Assignments/Fifth_Assignment/kudos/kudos/fs/tfs.c:254-388 | Without I/O errors a create that goes through adds one file of `size` zero bytes under a new name, keeps the volume well formed (distinct names, disjoint blocks, exact bitmap) and no other file changes; a refused create writes no block. |
| TfsSpace.CreatableIff | OSM/Assignments/Fifth_Assignment/kudos/kudos/fs/tfs.c:265-334 | A create goes through if and only if the size fits an inode, the name is new, an entry is free, and system blocks, blocks in use and the new blocks together fit the volume. |
| TfsPlans.BlocksNeededExact | OSM/Assignments/Fifth_Assignment/kudos/kudos/fs/tfs.c:259-268 | The signed sum and unsigned test let through exactly the sizes that fit 127 blocks, with their true block count, also where `size + 511` overflows. |
| TfsPlans.TakeFinds | OSM/Assignments/Fifth_Assignment/kudos/kudos/fs/tfs.c:315-334 | Successive bitmap_findnset calls return distinct blocks that were free, and the bitmap gains exactly those bits. |
| TfsPlans.TakeCounts | OSM/Assignments/Fifth_Assignment/kudos/kudos/fs/tfs.c:315-334 | They use up exactly as many free bits as blocks found, and come back short only when no bit is free. |
| TfsRemove.RemoveRefines | OSM/Assignments/Fifth_Assignment/kudos/kudos/fs/tfs.c:400-490 | Without I/O errors tfs_remove deletes the named file, keeps the volume well formed and changes no other file; without such a file it writes no block. |
| TfsPlans.ClearedBits | OSM/Assignments/Fifth_Assignment/kudos/kudos/fs/tfs.c:456-462 | The clearing loop clears the bits of the counted pointers and no other bit. |
| TfsPlans.PointerCountIsSpan | OSM/Assignments/Fifth_Assignment/kudos/kudos/fs/tfs.c:457-462 | The loop that stops at the first zero pointer (or at 127) visits exactly the data blocks of the file. |
| TfsWrite.WriteRefines | OSM/Assignments/Fifth_Assignment/kudos/kudos/fs/tfs.c:629-760 | tfs_write lays the slice, clipped to the file size, over that file, keeps the volume well formed and changes no other file; its status is the clipped length, or VFS_ERROR outside the file; WriteInPlain says what that is. |
| TfsRuns.ReadMatches | OSM/Assignments/Fifth_Assignment/kudos/kudos/fs/tfs.c:508-610 | tfs_open then tfs_read returns the slice of the file map, clipped to the file size. |
| TfsRuns.CreateInPlain | OSM/Assignments/Fifth_Assignment/kudos/kudos/fs/tfs.c:254-388 | On the map: a create goes through exactly when the size is at most 65024, the name new, there are fewer than 25 files and the blocks suffice; the new file reads as zeros and no other file changes. |
| TfsRuns.RemoveInPlain | OSM/Assignments/Fifth_Assignment/kudos/kudos/fs/tfs.c:400-490 | On the map: the named file is gone and no other changes; a missing name gives VFS_NOT_FOUND. |
| TfsRuns.ReadInPlain | OSM/Assignments/Fifth_Assignment/kudos/kudos/fs/tfs.c:536-543 | On the map: `len` bytes when the file has them from `offset` on, else what is left of the file, and VFS_ERROR outside it; the bytes are that slice. |
| TfsRuns.WriteInPlain | OSM/Assignments/Fifth_Assignment/kudos/kudos/fs/tfs.c:655-664 | On the map: `len` bytes, or as many as fit between `offset` and the end of the file, replace the old ones there; the file keeps its size and its other bytes. |
| TfsSpace.UsageInPlain | OSM/Assignments/Fifth_Assignment/kudos/kudos/fs/tfs.c:259-268 | The blocks in use are, for each file, one for the inode and one for every 512 bytes begun. |
| TfsLayout.EntryInBytes | OSM/Assignments/Fifth_Assignment/kudos/kudos/fs/tfs.c:300-316 | A directory entry is four bytes of inode number, most significant first, and 16 bytes of name. |
| TfsLayout.InodeInBytes | OSM/Assignments/Fifth_Assignment/kudos/kudos/fs/tfs.c:325-338 | An inode block is the file size and 127 block numbers, four bytes each, most significant first. |
| TfsLayout.SpanExact | OSM/Assignments/Fifth_Assignment/kudos/kudos/fs/tfs.c:259-268 | A file has the least number of 512-byte blocks that hold it. |
| TfsIds.HeldUntilRemoved | OSM/Assignments/Fifth_Assignment/kudos/kudos/fs/tfs.c:189-220 | An id is held from the tfs_open that returned it until its file is removed, whatever else is called. |
| TfsSpace.SpaceConserved | OSM/Assignments/Fifth_Assignment/kudos/kudos/fs/tfs.c:771-797 | Free bits, system blocks and the blocks of all files add up to the volume, on every well-formed volume. |
| TfsRuns.CreateThenRemove | OSM/Assignments/Fifth_Assignment/kudos/kudos/fs/tfs.c:254-490 | Creating a file and removing it again restores the allocation block byte for byte, and the file map. |
| TfsRuns.CreatePrefixSafe | OSM/Assignments/Fifth_Assignment/kudos/kudos/fs/tfs.c:340-384 | After any prefix of the block writes of tfs_create every earlier file keeps its entry, inode, bytes and allocation bits. |
| TfsRuns.RemovePrefixSafe | OSM/Assignments/Fifth_Assignment/kudos/kudos/fs/tfs.c:468-486 | After any prefix of the block writes of tfs_remove the same holds for every file but the victim. |
| TfsRuns.WritePrefixSafe | OSM/Assignments/Fifth_Assignment/kudos/kudos/fs/tfs.c:702-756 | After any prefix of the block writes of tfs_write the same holds for every file but the one written. |
| TfsRuns.WritePrefixBytes | OSM/Assignments/Fifth_Assignment/kudos/kudos/fs/tfs.c:702-756 | In the file being written the bytes of the blocks already written are new, all others old. |
| TfsRuns.WritePrefixFile | OSM/Assignments/Fifth_Assignment/kudos/kudos/fs/tfs.c:702-756 | So after any prefix of the block writes of tfs_write the file still has its entry and size, and holds the new bytes in the blocks written so far and its old bytes elsewhere. |
| TfsLayout.FindIsLookup | OSM/Assignments/Fifth_Assignment/kudos/kudos/fs/tfs.c:211-216 | The directory scan finds an entry exactly when the map has the name, and that entry holds the content. |
| TfsLayout.AbsUnique | OSM/Assignments/Fifth_Assignment/kudos/kudos/fs/tfs.c:282-292 | The file map of a readable volume is the only map that lists every entry in use and nothing else. |
| TfsDriver.Tfs.Open | OSM/Assignments/Fifth_Assignment/kudos/kudos/fs/tfs.c:189-220 | Over the block buffers: the inode block of the named file, VFS_NOT_FOUND when the map lacks it, VFS_ERROR on a failed request. |
| TfsDriver.Tfs.Create | OSM/Assignments/Fifth_Assignment/kudos/kudos/fs/tfs.c:254-388 | Performs the planned block writes in order, all of them when no disk request fails and a prefix otherwise; nothing outside the partition changes. |
| TfsDriver.Tfs.Remove | OSM/Assignments/Fifth_Assignment/kudos/kudos/fs/tfs.c:400-490 | The same for tfs_remove. |
| TfsDriver.Tfs.Read | OSM/Assignments/Fifth_Assignment/kudos/kudos/fs/tfs.c:508-610 | Fills the caller's buffer with the slice block by block: as many bytes as asked for, or as many as the file has left; leaves the rest of the buffer alone. |
| TfsDriver.Tfs.Write | OSM/Assignments/Fifth_Assignment/kudos/kudos/fs/tfs.c:629-760 | Performs the planned block writes in order, reading partial blocks first; when no request fails the file is its old bytes with as many of the new ones as fit laid over them at `offset`, and that number is returned; a prefix of the plan when a request fails. |
| TfsDriver.Tfs.GetFree | OSM/Assignments/Fifth_Assignment/kudos/kudos/fs/tfs.c:771-797 | The bytes that the system blocks and the blocks of all files leave of the volume. |
| TfsDriver.Tfs.FileCount | OSM/Assignments/Fifth_Assignment/kudos/kudos/fs/tfs.c:801-831 | The number of names in the file map. |
| TfsDriver.Tfs.File | OSM/Assignments/Fifth_Assignment/kudos/kudos/fs/tfs.c:837-873 | The name of file number `idx`, or VFS_ERROR when there is none. |
| TfsDriver.NameHasNumber | OSM/Assignments/Fifth_Assignment/kudos/kudos/fs/tfs.c:860-869 | Every file name is reached by some index below the count. |
| TfsDriver.NumberHasName | OSM/Assignments/Fifth_Assignment/kudos/kudos/fs/tfs.c:860-869 | Every index below the count names a file, different indices different files. |
| TfsDriver.CreateRan | OSM/Assignments/Fifth_Assignment/kudos/kudos/fs/tfs.c:254-388 | What Tfs.Create performed: without I/O errors the map call, with one every earlier file intact. |
| TfsDriver.RemoveRan | OSM/Assignments/Fifth_Assignment/kudos/kudos/fs/tfs.c:400-490 | What Tfs.Remove performed: without I/O errors the map call, with one every other file intact. |
| TfsDriver.WriteRan | OSM/Assignments/Fifth_Assignment/kudos/kudos/fs/tfs.c:629-760 | What Tfs.Write performed: without I/O errors the map call; with one every other file is intact, and the file written holds new bytes in its first so many touched blocks and its old bytes elsewhere. |
| Words.WordInBytes | OSM/Assignments/Fifth_Assignment/kudos/kudos/fs/tfs.c:315-327 | A word on the disk is its four bytes, most significant first. |
| Bitmap.BitSetAt | OSM/Assignments/Fifth_Assignment/kudos/kudos/lib/bitmap.c:80-97 | Setting or clearing a bit of a packed bitmap changes that bit alone. |
| Bitmap.BitsDetermine | OSM/Assignments/Fifth_Assignment/kudos/kudos/lib/bitmap.c:57-68 | Bitmaps with the same bits are the same bytes. |
| Bitmap.BitInByte | OSM/Assignments/Fifth_Assignment/kudos/kudos/lib/bitmap.c:57-68 | Bit `p` lies in byte `3 - p % 32 / 8` of word `p / 32`, at weight 2^(p % 8). |
| Bitmap.FirstClearUnique | OSM/Assignments/Fifth_Assignment/kudos/kudos/lib/bitmap.c:110-141 | The result of the search is the only number with its properties: clear, below the limit, and all bits before it set. |
| Bitmap.BitmapGet | OSM/Assignments/Fifth_Assignment/kudos/kudos/lib/bitmap.c:57-68 | Reads the bit out of the big-endian word buffer. |
| Bitmap.BitmapSet | OSM/Assignments/Fifth_Assignment/kudos/kudos/lib/bitmap.c:80-97 | Updates the buffer to the bitmap with that one bit changed. |
| Bitmap.BitmapFindNSet | OSM/Assignments/Fifth_Assignment/kudos/kudos/lib/bitmap.c:110-141 | Skipping full words, finds and sets the lowest clear bit below `l`, or returns -1 and changes nothing, also when the last word is only partly in use. |
| Libc.StringCmp | OSM/Assignments/Fifth_Assignment/kudos/kudos/lib/libc.c:78-93 | Zero exactly for equal C strings, otherwise the difference, as signed characters, of the bytes at the first position where they differ. |
| Libc.StringCopy | OSM/Assignments/Fifth_Assignment/kudos/kudos/lib/libc.c:113-136 | Leaves the string, cut to `buflen - 1`, one zero byte, and everything else as it was. |
| Libc.CopyInPlain | OSM/Assignments/Fifth_Assignment/kudos/kudos/lib/libc.c:113-136 | A copy byte by byte: the characters that fit, a zero behind them or in the last place, and the old bytes after it. |
| Libc.CopyPadsIff | OSM/Assignments/Fifth_Assignment/kudos/kudos/lib/libc.c:113-136 | The zero padding that the comment promises happens if and only if the bytes behind the copied string were zero before: the padding loop never advances. |
| Libc.CopyKeepsOld | OSM/Assignments/Fifth_Assignment/kudos/kudos/lib/libc.c:113-136 | It need not: copying the empty string over ones leaves ones behind it. |
| Libc.MemCopy | OSM/Assignments/Fifth_Assignment/kudos/kudos/lib/libc.c:150-188 | Copies exactly `buflen` bytes by words or bytes, whatever the alignment, and nothing else. |
| Libc.MemorySet | OSM/Assignments/Fifth_Assignment/kudos/kudos/lib/libc.c:201-209 | Fills exactly `size` bytes. |
| Threads.ActionKeeps | OSM/Assignments/Fifth_Assignment/kudos/kudos/kernel/sleepq.c:68-230 | Every lock-protected region of every CPU keeps the invariant: ready list exact, chains hashed right and duplicate free, sleepers reachable, no thread other than idle owned by two CPUs. A wake may come from a thread, or from an interrupt handler on a CPU whose thread is past sleepq_add, or finished, and not switched away yet. |
| Threads.RunKeeps | OSM/Assignments/Fifth_Assignment/kudos/kudos/kernel/sleepq.c:68-230 | So does every interleaving of any number of CPUs and threads. |
| Threads.BootInv | OSM/Assignments/Fifth_Assignment/kudos/kudos/kernel/thread.c:38-77 | The invariant holds when the tables have been initialised. |
| Threads.NoLostWakeup | OSM/Assignments/Fifth_Assignment/kudos/kudos/kernel/sleepq.c:68-164 | In every interleaving since boot, handlers included: with the sleep queue lock free a SLEEPING thread is marked and on the chain where a wake of its resource looks; a thread without mark is not SLEEPING; a READY thread is on the ready list and unmarked. |
| Threads.WakeBeforeSwitch | OSM/Assignments/Fifth_Assignment/kudos/kudos/kernel/thread.c:182-189 | A handler on the CPU that is about to switch away may wake that CPU's own thread; the scheduler then finds it unmarked and keeps it READY on the list, or runs it again. |
| ThreadSteps.ScheduleOutcome | OSM/Assignments/Fifth_Assignment/kudos/kudos/kernel/scheduler.c:160-179 | A dying thread's row becomes FREE and can be claimed; a marked thread is SLEEPING and off the ready list; any other thread but the idle one is READY behind all ready threads, or runs again when there are none; the head of the list runs next; no other row changes. |
| ThreadSteps.StateStep | OSM/Assignments/Fifth_Assignment/kudos/kudos/kernel/scheduler.c:160-179 | The whole life cycle: a row changes state only by being claimed (FREE to NONREADY), made ready, finished (RUNNING to DYING), woken (SLEEPING to READY), switched away from (DYING to FREE, marked to SLEEPING, else READY) or dispatched (READY to RUNNING). |
| ThreadSteps.FinishFreesRow | OSM/Assignments/Fifth_Assignment/kudos/kudos/kernel/thread.c:269-289 | After thread_finish the thread is DYING until its own CPU schedules, whatever other CPUs and interrupts do in any interleaving; then its row can be claimed again. |
| ThreadSteps.ReadyStep | OSM/Assignments/Fifth_Assignment/kudos/kudos/kernel/scheduler.c:160-179 | A ready thread keeps its place but for moving up one at each scheduling; at the head it is the one that runs. |
| ThreadSteps.RunsInTurn | OSM/Assignments/Fifth_Assignment/kudos/kudos/kernel/scheduler.c:160-179 | Bounded waiting: in every run, once the scheduler has picked `i` threads, on whichever CPUs, it next picks the one that had `i` others before it. |
| ThreadSteps.CpuGoesOn | OSM/Assignments/Fifth_Assignment/kudos/kudos/kernel/sleepq.c:68-230 | Every CPU can take its next step, but for one waiting in sleepq_add for the sleep queue lock, whose holder is then another CPU that can. |
| Threads.WakeDelivers | OSM/Assignments/Fifth_Assignment/kudos/kudos/kernel/sleepq.c:115-164 | A wake reaches a thread exactly when one waits on the resource, it is the longest waiting one, and afterwards that thread is unmarked and READY on the ready list or still RUNNING. |
| Threads.WakeWaiters | OSM/Assignments/Fifth_Assignment/kudos/kudos/kernel/sleepq.c:115-164 | The wake takes the head off the waiters of its resource and leaves the waiters of every other resource alone. |
| Threads.WaitersStep | OSM/Assignments/Fifth_Assignment/kudos/kudos/kernel/sleepq.c:68-230 | The waiters of a resource change only by linking at the end and unlinking at the front, for every action of every CPU. |
| Threads.WaitersElsewhere | OSM/Assignments/Fifth_Assignment/kudos/kudos/kernel/sleepq.c:68-103 | A thread that waits on a resource runs its own code on no CPU. |
| Threads.RunHouses | OSM/Assignments/Fifth_Assignment/kudos/kudos/kernel/scheduler.c:154-186 | In every run a RUNNING thread other than the idle one keeps belonging to a CPU. |
| Threads.OneOwner | OSM/Assignments/Fifth_Assignment/kudos/kudos/kernel/scheduler.c:154-186 | So in every state since boot a RUNNING thread other than the idle one belongs to exactly one CPU. |
| Threads.CurrentTwice | OSM/Assignments/Fifth_Assignment/kudos/kudos/kernel/scheduler.c:154-186 | scheduler_current_thread can name a thread on two CPUs only while one of them is leaving it. |
| Threads.CurrentTwiceHappens | OSM/Assignments/Fifth_Assignment/kudos/kudos/kernel/scheduler.c:154-186 | It can happen: a concrete reachable state in which the table alone names thread 1 on both CPUs. |
| ThreadTables.LinkedAppend | OSM/Assignments/Fifth_Assignment/kudos/kudos/kernel/scheduler.c:51-70 | Appending through the shared `next` field keeps a list acyclic and ended by -1. |
| ThreadTables.UnlinkEncodes | OSM/Assignments/Fifth_Assignment/kudos/kudos/kernel/sleepq.c:136-144 | Unlinking a waiter anywhere in a chain keeps every list encoded by the one `next` field. |
| ThreadTables.LinkEncodes | OSM/Assignments/Fifth_Assignment/kudos/kudos/kernel/sleepq.c:88-100 | Linking at the end of a chain does, too. |
| ThreadTables.RetireEncodes | OSM/Assignments/Fifth_Assignment/kudos/kudos/kernel/scheduler.c:164-174 | And so does what the scheduler does with the thread that was running. |
| ThreadTables.ThreadTable.constructor | OSM/Assignments/Fifth_Assignment/kudos/kudos/kernel/thread.c:38-77 | The initialised tables encode the boot state. |
| ThreadTables.ThreadTable.AddToReadyList | OSM/Assignments/Fifth_Assignment/kudos/kudos/kernel/scheduler.c:51-70 | Head, tail and links after appending to the ready list. |
| ThreadTables.ThreadTable.RemoveFirstReady | OSM/Assignments/Fifth_Assignment/kudos/kudos/kernel/scheduler.c:82-107 | The head leaves the ready list, or the idle thread is returned and nothing changes. |
| ThreadTables.ThreadTable.SleepqMark | OSM/Assignments/Fifth_Assignment/kudos/kudos/kernel/sleepq.c:68-84 | The running thread is marked with the resource and no other is; this is the Prepare action. |
| ThreadTables.ThreadTable.SleepqLink | OSM/Assignments/Fifth_Assignment/kudos/kudos/kernel/sleepq.c:86-103 | The thread joins the end of chain `resource % buckets` and no other chain changes; this is the Link action. |
| ThreadTables.ThreadTable.FindWaiter | OSM/Assignments/Fifth_Assignment/kudos/kudos/kernel/sleepq.c:126-134 | The walk stops at the first thread of the chain that waits for this very resource, with its predecessor. |
| ThreadTables.ThreadTable.WakeUnlink | OSM/Assignments/Fifth_Assignment/kudos/kudos/kernel/sleepq.c:126-144 | Unlinking the thread found is the Unlink action, from a thread or from a handler. |
| ThreadTables.ThreadTable.WakeFinish | OSM/Assignments/Fifth_Assignment/kudos/kudos/kernel/sleepq.c:146-160 | The mark of the thread is cleared, and a sleeper becomes READY at the end of the ready list; this is the FinishWake action. |
| ThreadTables.ThreadTable.SleepqWake | OSM/Assignments/Fifth_Assignment/kudos/kudos/kernel/sleepq.c:115-164 | Delivers the longest waiting thread, if any waits; all other waiters stay. |
| ThreadTables.ThreadTable.WakeRound | OSM/Assignments/Fifth_Assignment/kudos/kudos/kernel/sleepq.c:189-226 | One round of sleepq_wake_all delivers the longest waiting thread and goes on behind it, or finds none and gives the lock back. |
| ThreadTables.ThreadTable.SleepqWakeAll | OSM/Assignments/Fifth_Assignment/kudos/kudos/kernel/sleepq.c:173-230 | Delivers every waiter of the resource, longest waiting first, no other thread, and leaves none. |
| ThreadTables.ThreadTable.RetireCurrent | OSM/Assignments/Fifth_Assignment/kudos/kudos/kernel/scheduler.c:160-174 | The row of the thread that was running becomes FREE when it was dying, SLEEPING when it was marked, and else READY at the end of the ready list, the idle thread excepted; no other row changes. |
| ThreadTables.ThreadTable.DispatchFirst | OSM/Assignments/Fifth_Assignment/kudos/kudos/kernel/scheduler.c:176-179 | The first ready thread, or the idle one, leaves the list and is RUNNING; no other row changes. |
| ThreadTables.ThreadTable.SchedulerSchedule | OSM/Assignments/Fifth_Assignment/kudos/kudos/kernel/scheduler.c:160-179 | Both parts together: FREE for a dying thread, SLEEPING for a marked one, else READY at the end of the list or running again; the thread returned is RUNNING and no other row changes; the tables encode the Schedule action. |
| ThreadTables.ThreadTable.SchedulerPublish | OSM/Assignments/Fifth_Assignment/kudos/kudos/kernel/scheduler.c:181-181 | The current thread of the CPU becomes the dispatched one. |
| ThreadTables.ThreadTable.SchedulerAddReady | OSM/Assignments/Fifth_Assignment/kudos/kudos/kernel/scheduler.c:119-133 | The new thread is READY at the end of the ready list; no other row changes. |
| ThreadTables.ThreadTable.ThreadClaim | OSM/Assignments/Fifth_Assignment/kudos/kudos/kernel/thread.c:91-130 | Claims the first FREE row from `next_tid` on, the idle row excluded, which becomes NONREADY, or returns -1 exactly when none is free. |
| ThreadTables.ThreadTable.ThreadInit | OSM/Assignments/Fifth_Assignment/kudos/kudos/kernel/thread.c:132-159 | The claimed row has no mark and no successor; no other row changes. |
| ThreadTables.ThreadTable.ThreadFinish | OSM/Assignments/Fifth_Assignment/kudos/kudos/kernel/thread.c:269-289 | The running thread is DYING; no other row changes. |
| ThreadTables.AllRows | OSM/Assignments/Fifth_Assignment/kudos/kudos/kernel/thread.c:104-116 | The circular scan visits every row, wherever it starts. |
| Semaphores.StepKeeps | OSM/Assignments/Fifth_Assignment/kudos/kudos/kernel/semaphore.c:110-153 | Every step of every CPU, inside and outside semaphore operations, with V also called by interrupt handlers, keeps the accounting of every semaphore. |
| Semaphores.RunKeeps | OSM/Assignments/Fifth_Assignment/kudos/kudos/kernel/semaphore.c:110-153 | So does every interleaving. |
| Semaphores.BootKeeps | OSM/Assignments/Fifth_Assignment/kudos/kudos/kernel/semaphore.c:50-84 | The accounting holds for freshly created semaphores. |
| Semaphores.Accounting | OSM/Assignments/Fifth_Assignment/kudos/kudos/kernel/semaphore.c:110-153 | With its lock free, a semaphore's value is initial plus V calls minus P calls, exactly max(0, -value) threads are chained on it, and the P calls granted are the P calls up to initial plus V calls. |
| Semaphores.MutualExclusion | OSM/Assignments/Fifth_Assignment/kudos/kudos/kernel/semaphore.c:110-153 | In every interleaving no more P calls have returned than were granted, and no more are granted than initial plus V calls. The threads inside (returned from P, no V since) number at most initial plus the V calls made from outside; so with initial value 1 and V called only from inside, at most one thread is inside. |
| Semaphores.WakeFindsThread | OSM/Assignments/Fifth_Assignment/kudos/kudos/kernel/semaphore.c:139-153 | When V wakes, some thread is waiting, and the longest waiting one is taken. |
| Semaphores.WaitersTaken | OSM/Assignments/Fifth_Assignment/kudos/kudos/kernel/semaphore.c:110-153 | The waiters of a semaphore change only by its own P (at the end) and its own V (at the front): first in, first out. |
| SemaphoreSteps.SemaphoreStep | OSM/Assignments/Fifth_Assignment/kudos/kudos/kernel/semaphore.c:110-153 | P lowers the value by one, V raises it by one, no other step of any CPU changes it; who is inside follows the returns of P and the calls of V. |
| SemaphoreSteps.ValueIsCount | OSM/Assignments/Fifth_Assignment/kudos/kudos/kernel/semaphore.c:110-153 | In every interleaving the value moves by the calls of V less the calls of P in the run. |
| SemaphoreSteps.OpGoesOn | OSM/Assignments/Fifth_Assignment/kudos/kudos/kernel/semaphore.c:110-153 | A CPU inside an operation can take its next step unless it waits for the sleep queue lock; a woken thread returns from P as soon as it runs. |
| SemaphoreTables.SemaphoreTable.P | OSM/Assignments/Fifth_Assignment/kudos/kudos/kernel/semaphore.c:110-126 | Lowers the value and, exactly when it drops below zero, queues the caller behind the waiters. |
| SemaphoreTables.SemaphoreTable.V | OSM/Assignments/Fifth_Assignment/kudos/kudos/kernel/semaphore.c:139-153 | Raises the value and, exactly when it was negative, delivers the longest waiting thread. |
| SemaphoreTables.SemaphoreTable.Create | OSM/Assignments/Fifth_Assignment/kudos/kudos/kernel/semaphore.c:50-84 | Claims the first unused row from the cursor on, or returns -1 exactly when every row is used. |
| SemaphoreTables.SemaphoreTable.Destroy | OSM/Assignments/Fifth_Assignment/kudos/kudos/kernel/semaphore.c:93-96 | Gives the row back. |
| SemaphoreTables.SemaphoreTable.constructor | OSM/Assignments/Fifth_Assignment/kudos/kudos/kernel/semaphore.c:30-37 | All rows are unused. |
| Allocator.ServedTiles | OSM/Assignments/Fifth_Assignment/kudos/userland/lib.c:735-774 | Serving a request keeps the blocks tiling the heap without gap or overlap, and no two free blocks adjacent; the block handed out is live and large enough. |
| Allocator.FreedTiles | OSM/Assignments/Fifth_Assignment/kudos/userland/lib.c:777-817 | So does freeing a block, whichever neighbours it joins. |
| Allocator.ServedWords | OSM/Assignments/Fifth_Assignment/kudos/userland/lib.c:735-774 | Of the free words exactly those of the block handed out are taken; no live block changes. |
| Allocator.FreedWords | OSM/Assignments/Fifth_Assignment/kudos/userland/lib.c:777-817 | Exactly the words of the freed block become free; no other live block changes. |
| Allocator.UseDetermines | OSM/Assignments/Fifth_Assignment/kudos/userland/lib.c:777-817 | There is one tiling without adjacent free blocks for given free words and live blocks, so that fixes what free must do. |
| Allocator.FreeUndoesMalloc | OSM/Assignments/Fifth_Assignment/kudos/userland/lib.c:735-817 | free(malloc(n)) restores the identical tiling and set of free blocks. |
| Heaps.SameFreeList | OSM/Assignments/Fifth_Assignment/kudos/userland/lib.c:724-730 | A tiling fixes the free list: head, headers and links are the same in any two heaps with the same tiling. |
| Heaps.EveryWordOnce | OSM/Assignments/Fifth_Assignment/kudos/userland/lib.c:724-730 | Every word of the heap lies in exactly one block. |
| Allocator.RoundedExact | OSM/Assignments/Fifth_Assignment/kudos/userland/lib.c:743-748 | 8 for requests up to 8 bytes; else the least multiple of 4 not below the request, up to 2^32 - 4 bytes; 0 for the last three sizes. |
| Allocator.TestsExactIff | OSM/Assignments/Fifth_Assignment/kudos/userland/lib.c:755-763 | On a block below 2^31 bytes the signed tests decide "fits" and "can be split" correctly if and only if the rounded request with its header exceeds the block by at most 2^31. |
| Allocator.HugeRequest | OSM/Assignments/Fifth_Assignment/kudos/userland/lib.c:755-763 | A concrete request near 2^32 for which they accept a block that is too small. |
| Heaps.HalfInRange | OSM/Assignments/Fifth_Assignment/kudos/userland/lib.c:743-763 | Every request of at most 2^31 bytes is in the range for which malloc's tests are right, whatever the free list. |
| Heaps.Heap.constructor | OSM/Assignments/Fifth_Assignment/kudos/userland/lib.c:725-730 | One free block covers the heap: its header holds the whole size and its link is NULL. |
| Heaps.Heap.Malloc | OSM/Assignments/Fifth_Assignment/kudos/userland/lib.c:735-774 | In bytes: fails exactly when no free block has 12 bytes and room for the request and a 4-byte header; else hands out the end of the first block that has, or the whole block where less than 12 bytes would be left; every live block keeps its place, size and bytes. |
| Heaps.Heap.Free | OSM/Assignments/Fifth_Assignment/kudos/userland/lib.c:777-817 | Exactly the words of the block become free: it joins the address-sorted list and the free blocks it touches; every other live block keeps its place, size and bytes. |
| Heaps.Heap.Realloc | OSM/Assignments/Fifth_Assignment/kudos/userland/lib.c:831-855 | Moves the block into a newly served one: the first `size` bytes, as far as the old block had them, stand at the new address as they did at the old one; leaves everything alone when no block fits; every other live block is kept. |
| Heaps.Heap.Calloc | OSM/Assignments/Fifth_Assignment/kudos/userland/lib.c:819-829 | The served block starts with as many zero bytes as were requested, modulo 2^32; every live block is kept. |
| YamsTlb.RunReachable | OSM/Assignments/First_Assignment/yams/src/cp0.c:82-194 | Every instruction sequence from reset keeps the TLB registers masked and Wired <= Random <= 15. |
| YamsTlb.WiredEntriesStay | OSM/Assignments/First_Assignment/yams/src/cpu.c:982-1005 | So TLBWR never replaces a wired entry. |
| YamsTlb.WiredSurvive | OSM/Assignments/First_Assignment/yams/src/cpu.c:982-1005 | Over any program without TLBWI that does not set Wired every wired entry stays as it was. |
| YamsTlb.EveryUnwiredReplaced | OSM/Assignments/First_Assignment/yams/src/cpu.c:999-1004 | Successive TLBWRs replace every unwired entry: each of the first 16 - Wired of them another one. |
| YamsTlb.WiredThenRandom | OSM/Assignments/First_Assignment/yams/src/cpu.c:1073-1098 | After MTC0 to Wired the TLBWRs run from entry 15 down to the first unwired one. |
| YamsTlb.TlbwrStep | OSM/Assignments/First_Assignment/yams/src/cpu.c:982-1005 | TLBWR writes the entry TLBWI would write at Index = Random, and steps Random down, from Wired back to 15. |
| YamsTlb.WriteThenRead | OSM/Assignments/First_Assignment/yams/src/cpu.c:935-981 | In every reachable state TLBWI then TLBR returns the same EntryHi, EntryLo0 and EntryLo1 up to the combined G bit. |
| YamsTlb.WriteThenTranslate | OSM/Assignments/First_Assignment/yams/src/cp0.c:211-240 | In every reachable state TLBWI makes an address on the page in EntryHi translate as EntryLo0 says when bit 12 of the address is clear and as EntryLo1 says when it is set (frame number, valid and dirty bits), unless an earlier entry holds that page. |
| YamsTlb.MapPages | OSM/Assignments/First_Assignment/yams/src/cpu.c:1073-1098 | In every reachable state four MTC0 (EntryHi, EntryLo0, EntryLo1, Index) and TLBWI map a pair of pages: even addresses translate as the first value says and odd ones as the second. |
| YamsTlb.RefillMaps | OSM/Assignments/First_Assignment/yams/src/cpu.c:982-1005 | A TLB refill, in every reachable state: when no entry holds the page of an address it misses, and after the exception, MTC0 to EntryLo0 and EntryLo1 and TLBWR that address translates as the register for its half says. |
| YamsTlb.TranslateInBits | OSM/Assignments/First_Assignment/yams/src/cp0.c:211-240 | The first entry whose page bits are the address's and that is global or of the address space in EntryHi decides, its even half when bit 12 is clear; there is a refill when no entry does. |
| YamsTlb.HiRoundTrip | OSM/Assignments/First_Assignment/yams/src/cp0.h:157-170 | The EntryHi field macros give the register back if and only if its unused bits are clear. |
| YamsTlb.LoRoundTrip | OSM/Assignments/First_Assignment/yams/src/cp0.h:69-97 | The EntryLo field macros give the register back, with the entry's G bit, if and only if its top four bits are clear. |
| YamsTlb.Mtc0Masks | OSM/Assignments/First_Assignment/yams/src/cpu.c:1073-1098 | MTC0 and the exception path leave only such values in EntryHi and EntryLo. |
| YamsTlb.ProbeIsLast | OSM/Assignments/First_Assignment/yams/src/cpu.c:1016-1025 | TLBP keeps the last match, and sets the failure bit when there is none. |
| YamsTlb.ProbeInBits | OSM/Assignments/First_Assignment/yams/src/cpu.c:1007-1027 | TLBP answers the last entry that holds the page in EntryHi, and otherwise keeps Index with its top bit set. |
| YamsTlb.ProbeAgreesIff | OSM/Assignments/First_Assignment/yams/src/cpu.c:1007-1027 | TLBP fails exactly when the translator finds nothing, and finds the entry the translator uses if and only if no two entries match. |
| YamsTlb.ResetDisagrees | OSM/Assignments/First_Assignment/yams/src/cp0.c:82-194 | Right after reset they disagree: every entry matches, TLBP gives the last and the translator uses the first. |
| YamsTlb.SamePage | OSM/Assignments/First_Assignment/yams/src/cp0.c:211-213 | An address is looked up under the page number in EntryHi if and only if it lies on that page. |
| YamsTlb.TlbUnit.constructor | OSM/Assignments/First_Assignment/yams/src/cp0.c:82-194 | The reset state. |
| YamsTlb.TlbUnit.WriteIndexed | OSM/Assignments/First_Assignment/yams/src/cpu.c:960-981 | The field stores make the entry the written one, change no other entry, and do nothing for an index beyond the table. |
| YamsTlb.TlbUnit.WriteRandom | OSM/Assignments/First_Assignment/yams/src/cpu.c:982-1005 | Writes the entry Random names and no other, and steps Random down to Wired, then back to 15. |
| YamsTlb.TlbUnit.ReadIndexed | OSM/Assignments/First_Assignment/yams/src/cpu.c:935-959 | Reassembles EntryHi, EntryLo0 and EntryLo1 from the entry. |
| YamsTlb.TlbUnit.ProbeEntries | OSM/Assignments/First_Assignment/yams/src/cpu.c:1007-1027 | The probe loop leaves the number of the last entry that holds the page in EntryHi, or Index with its top bit set. |
| YamsTlb.TlbUnit.Lookup | OSM/Assignments/First_Assignment/yams/src/cp0.c:202-247 | The first entry that holds the page decides, with its even or odd half by bit 12 of the address: refill, invalid, modification, or the frame's address. |
| YamsMemory.UnalignedStore | OSM/Assignments/First_Assignment/yams/src/cpu.c:1469-1554 | For every address, register and page table, SWL at `va` then SWR at `va + 3` changes exactly the bytes at `va..va + 3`, each where its own address translates to, to those of the register, most significant first. |
| YamsMemory.BytePlace | OSM/Assignments/First_Assignment/yams/src/cpu.c:1469-1554 | Byte `i` of the unaligned word lies where `va + i` translates to. |
| YamsMemory.UnalignedRoundTrip | OSM/Assignments/First_Assignment/yams/src/cpu.c:1344-1437 | LWL at `va` then LWR at `va + 3` afterwards gives the stored register, whatever the target held. |
| YamsMemory.SwlBytes | OSM/Assignments/First_Assignment/yams/src/cpu.c:1480-1500 | SWL's masks and shifts, byte by byte. |
| YamsMemory.SwrBytes | OSM/Assignments/First_Assignment/yams/src/cpu.c:1531-1551 | SWR's masks and shifts, byte by byte. |
| YamsMemory.LoadsRestore | OSM/Assignments/First_Assignment/yams/src/cpu.c:1353-1436 | The register arithmetic of the two loads undoes that of the two stores. |
| YamsMemory.TwoWords | OSM/Assignments/First_Assignment/yams/src/memory.c:72-223 | The two words touched are the same word or do not overlap, even when they lie on different pages. |
| YamsMemory.LoadStoreAgree | OSM/Assignments/First_Assignment/yams/src/memory.c:225-367 | A store that is allowed goes to the address a load of the same virtual address reads. |
| YamsMemory.KeepsOffset | OSM/Assignments/First_Assignment/yams/src/cp0.c:239-240 | Translation keeps the offset in the page. |
| YamsMemory.WhereItGoes | OSM/Assignments/First_Assignment/yams/src/memory.c:54-145 | Where an access goes, by its address: a user program gets an address error from 2^31 on; the TLB decides below 2^31 and from 3 * 2^30 on; in between it is the low 29 bits of the address, but for the I/O area; a place beyond the memory size is a bus error. |
| YamsMemory.LwlBytes | OSM/Assignments/First_Assignment/yams/src/cpu.c:1359-1367 | LWL puts the bytes from the address to the end of its word into the register's first bytes and keeps the others. |
| YamsMemory.LwrBytes | OSM/Assignments/First_Assignment/yams/src/cpu.c:1426-1434 | LWR puts the bytes of the word up to the address into the register's last bytes and keeps the others. |
| YamsLlSc.BreaksWritten | OSM/Assignments/First_Assignment/yams/src/cpu.c:1438-1554 | Every SB, SH, SW, SWL and SWR that reaches main memory, through any page table, invalidates the links to exactly the word it writes: phys_addr agrees with the store's own translation. |
| YamsLlSc.TargetInPlain | OSM/Assignments/First_Assignment/yams/src/cpu.c:1438-1554 | SH of an odd address and SW of one that is no multiple of 4 are address errors; SWL and SWR must be able to load and store the word; every other store goes where its address goes. A store that goes through breaks the links to the word of its address. |
| YamsLlSc.PhysInPlain | OSM/Assignments/First_Assignment/yams/src/memory.c:54-70 | phys_addr is what a load translates to below 2^31 and from 3 * 2^30 on, and else the low 29 bits of the address, also in the I/O area. |
| YamsLlSc.UnalignedAgree | OSM/Assignments/First_Assignment/yams/src/cpu.c:1469-1554 | SWL and SWR store as in YamsMemory. |
| YamsLlSc.StoredBytes | OSM/Assignments/First_Assignment/yams/src/cpu.c:1438-1554 | Byte by byte and big-endian: SB leaves the register's last byte, SH its last two, SW all four, SWL and SWR its first or last ones in the word; no other byte of memory changes. |
| YamsLlSc.WritesBreak | OSM/Assignments/First_Assignment/yams/src/cpu.c:322-330 | So whatever writes a word of main memory breaks its links. |
| YamsLlSc.BreaksWrite | OSM/Assignments/First_Assignment/yams/src/cpu.c:322-330 | Conversely, outside the I/O area only an instruction that writes the word breaks a link to it. |
| YamsLlSc.LinkHistory | OSM/Assignments/First_Assignment/yams/src/cpu.c:1558-1575 | In every interleaving a valid LLAddr is explained by that CPU's last LL, with nothing in between that breaks the link. |
| YamsLlSc.LinkStays | OSM/Assignments/First_Assignment/yams/src/cpu.c:322-330 | Conversely such an LL keeps the link until the CPU returns from an exception. |
| YamsLlSc.ScIsAtomic | OSM/Assignments/First_Assignment/yams/src/cpu.c:1594-1634 | With at most 256 MB of memory: when SC stores to main memory, this CPU's last LL was of the same word, no CPU has stored to it since, and memory still holds the value LL read, whatever virtual addresses and page tables were used. |
| YamsLlSc.ScSucceedsIff | OSM/Assignments/First_Assignment/yams/src/cpu.c:1594-1634 | With at most 256 MB of memory: an SC of a word of main memory succeeds if and only if this CPU's last LL was of that word, it has not returned from an exception since, and no instruction of any CPU has broken the link; the word then holds the register, else nothing changes. |
| YamsLlSc.AliasCommits | OSM/Assignments/First_Assignment/yams/src/memory.c:54-70 | With more memory it fails: after LL of 0xB0000000, in the I/O area, SC of 0x90000000 stores to a word this CPU never loaded. |
| YamsLlSc.AtomicIff | OSM/Assignments/First_Assignment/yams/src/memory.c:54-70 | SC is atomic in every run if and only if the memory size is at most 256 MB. |
| YamsLlSc.ScMisaligned | OSM/Assignments/First_Assignment/yams/src/cpu.c:1594-1634 | SC of a misaligned address never finds its link, so the alignment error after the test never happens. |
| YamsLlSc.CounterExact | OSM/Assignments/First_Assignment/yams/src/cpu.c:1558-1634 | With at most 256 MB of memory a word changed only by LL, add one, SC equals its start plus the number of successful SCs modulo 2^32, in every interleaving. |
| YamsLlSc.Hardware.constructor | OSM/Assignments/First_Assignment/yams/src/cp0.c:82-194 | All links start invalid. |
| YamsLlSc.Hardware.InvalidateRmwSequences | OSM/Assignments/First_Assignment/yams/src/cpu.c:322-330 | Exactly the links to that word become invalid. |
| YamsLlSc.Hardware.LoadLinked | OSM/Assignments/First_Assignment/yams/src/cpu.c:1558-1575 | Translates, reads the word and sets the CPU's link to phys_addr of the address, for the I/O area too; or raises the exception. |
| YamsLlSc.Hardware.StoreConditional | OSM/Assignments/First_Assignment/yams/src/cpu.c:1594-1634 | Stores the four bytes of the register, breaks all links to the word and returns 1 when the link stands; otherwise returns 0 and changes nothing; or raises the exception of the trial write. |
| YamsLlSc.Hardware.StoreRegister | OSM/Assignments/First_Assignment/yams/src/cpu.c:1438-1554 | SB, SH, SW, SWL and SWR: the bytes stored, big-endian, and no other byte of memory; the broken links; or the exception and nothing else. |
| VfsShutdown.SafeShutdown | OSM/Assignments/Fifth_Assignment/kudos/kudos/fs/vfs.c:125-160 | In every interleaving of any calls with one vfs_deinit, vfs_ops is the number of operations between start and end, the unmount loop runs only with none active and none able to start, and the assertions at lines 140 and 359 hold. |
| VfsShutdown.SignalledOnce | OSM/Assignments/Fifth_Assignment/kudos/kudos/fs/vfs.c:353-369 | vfs_unmount_sem is signalled exactly once when vfs_deinit had to wait, and never otherwise. |
| VfsShutdown.FilesStayMounted | OSM/Assignments/Fifth_Assignment/kudos/kudos/fs/vfs.c:464-475 | Until the shutdown unmounts, every row of the open-file table is on a mounted filesystem whose lock has not been destroyed. |
| VfsShutdown.GivesUpIff | OSM/Assignments/Fifth_Assignment/kudos/kudos/fs/vfs.c:385-820 | An operation gives up exactly when the tables refuse it: a filesystem that is not mounted, or cannot be mounted any more, no free row, a file that is not open, an unmount with a file open; it then changes no table, and otherwise goes on. |
| VfsShutdown.DeinitUnmountsAll | OSM/Assignments/Fifth_Assignment/kudos/kudos/fs/vfs.c:125-160 | In every run in which vfs_deinit has returned nothing is mounted, whatever was mounted before or while it waited, and no operation is in flight or can start. |
| VfsShutdown.StepKeeps | OSM/Assignments/Fifth_Assignment/kudos/kudos/fs/vfs.c:333-369 | The invariant behind these is kept by every step. |
| VfsShutdown.RunKeeps | OSM/Assignments/Fifth_Assignment/kudos/kudos/fs/vfs.c:333-369 | And so by every run. |
| VfsCalls.OperationsOrderly | OSM/Assignments/Fifth_Assignment/kudos/kudos/fs/vfs.c:385-820 | Every path through every operation of vfs.c takes its locks in the order op_sem, mount table, open-file table, filesystem lock, gives each back or destroys it, and locks no filesystem it has not found mounted or taken from an open file. |
| VfsCalls.DeinitOrderly | OSM/Assignments/Fifth_Assignment/kudos/kudos/fs/vfs.c:125-160 | So does vfs_deinit, over any filesystems. |
| VfsReturns.Progress | OSM/Assignments/Fifth_Assignment/kudos/kudos/fs/vfs.c:333-820 | As long as no call waits for a destroyed lock, some call can go on unless all have returned: these locks admit no deadlock. |
| VfsReturns.RunBounded | OSM/Assignments/Fifth_Assignment/kudos/kudos/fs/vfs.c:333-820 | Every step uses up some of the steps its call can still take, so no run is longer than all calls together. |
| VfsReturns.ReturnedIff | OSM/Assignments/Fifth_Assignment/kudos/kudos/fs/tfs.c:162-175 | When nothing moves any more, every call has returned if and only if none waits for the lock of a filesystem that was unmounted. |
| VfsReturns.CarefulReturns | OSM/Assignments/Fifth_Assignment/kudos/kudos/fs/vfs.c:441-820 | Every call returns, a waiting vfs_deinit included, in every run in which no step closes the last open file of a filesystem that a call has fetched and not locked yet. |
| VfsReturns.PoliteReturns | OSM/Assignments/Fifth_Assignment/kudos/kudos/fs/vfs.c:568-686 | In particular in every run in which no file is closed while another operation on it has yet to lock its filesystem. |
| VfsReturns.StrandsIff | OSM/Assignments/Fifth_Assignment/kudos/kudos/fs/vfs.c:589-686 | After any such run, a closing with the mount table and the filesystem unlocked can make a call wait for ever, once a vfs_unmount comes along, if and only if it closes the last open file of a filesystem that a call has fetched and not locked yet. |
| VfsReturns.ReaderStranded | OSM/Assignments/Fifth_Assignment/kudos/kudos/fs/vfs.c:661-676 | It happens: a run in which a file is read, closed by a second call, and its filesystem unmounted by a third, ends with the reader at a destroyed lock. |
| VfsReturns.StrandedForever | OSM/Assignments/Fifth_Assignment/kudos/kudos/fs/tfs.c:168-173 | Such a call never takes another step, its operation stays counted, and vfs_deinit never gets to unmount. |
| VfsTables.MountApartIff | OSM/Assignments/Fifth_Assignment/kudos/kudos/fs/vfs.c:411-422 | After a mount the mountpoint names are pairwise distinct if and only if no other row, mounted or not, holds the first 15 characters of the new name. |
| VfsTables.ShortNamesStayApart | OSM/Assignments/Fifth_Assignment/kudos/kudos/fs/vfs.c:411-422 | For names of at most 15 characters the check in vfs_mount is enough. |
| VfsTables.LongNameCollides | OSM/Assignments/Fifth_Assignment/kudos/kudos/fs/vfs.c:411-422 | For a longer name it is not: beside a volume mounted under 15 letters a name of 16 passes the check, and after the mount two rows carry the same name. |
| VfsTables.Vfs.constructor | OSM/Assignments/Fifth_Assignment/kudos/kudos/fs/vfs.c:89-116 | No filesystem is mounted and no file open. |
| VfsTables.Vfs.StartOp | OSM/Assignments/Fifth_Assignment/kudos/kudos/fs/vfs.c:333-348 | While the layer is usable one more operation is counted; afterwards it is refused. |
| VfsTables.Vfs.EndOp | OSM/Assignments/Fifth_Assignment/kudos/kudos/fs/vfs.c:353-369 | One operation less; wakes a pending shutdown exactly when it was the last. |
| VfsTables.Vfs.Mount | OSM/Assignments/Fifth_Assignment/kudos/kudos/fs/vfs.c:385-427 | Within a started operation, also one that a shutdown waits for: succeeds exactly when a row is free and no row carries the name; open files still belong to mounted filesystems; short names stay distinct. |
| VfsTables.Vfs.Unmount | OSM/Assignments/Fifth_Assignment/kudos/kudos/fs/vfs.c:441-481 | Refuses exactly while a file of that filesystem is open; the row keeps its name; every other file's filesystem stays mounted. |
| VfsTables.Vfs.GetFilesystem | OSM/Assignments/Fifth_Assignment/kudos/kudos/fs/vfs.c:255-266 | The filesystem of the first row with that name. |
| VfsTables.Vfs.OpenReserve | OSM/Assignments/Fifth_Assignment/kudos/kudos/fs/vfs.c:510-539 | Reserves the first free row for the mounted volume, with the errors in the order of the code. |
| VfsTables.Vfs.OpenFinish | OSM/Assignments/Fifth_Assignment/kudos/kudos/fs/vfs.c:541-555 | Fills the reserved row, or gives it back on an error. |
| VfsTables.Vfs.Close | OSM/Assignments/Fifth_Assignment/kudos/kudos/fs/vfs.c:589-610 | Frees the row. |
| VfsTables.Vfs.BeginDeinit | OSM/Assignments/Fifth_Assignment/kudos/kudos/fs/vfs.c:130-142 | The layer is unusable from then on; waits exactly while operations are active. |
| VfsTables.Vfs.Deinit | OSM/Assignments/Fifth_Assignment/kudos/kudos/fs/vfs.c:144-155 | With no operation active every filesystem is unmounted, whatever is open. |
| Getopt.SwapRuns | OSM/Assignments/First_Assignment/yams/src/getopt.c:355-361 | The element-wise swap exchanges two runs of equal length and nothing else. |
| Getopt.Exchange | OSM/Assignments/First_Assignment/yams/src/getopt.c:311-388 | The loop over shrinking segments is the stable rotation of two adjacent segments, in place. |
| Getopt.SplitKeepsAll | OSM/Assignments/First_Assignment/yams/src/getopt.c:555-612 | Options and non-options together are a permutation of the arguments. |
| Getopt.SplitKeepsOrder | OSM/Assignments/First_Assignment/yams/src/getopt.c:555-612 | Each group keeps its original order. |
| Getopt.ResultIsStable | OSM/Assignments/First_Assignment/yams/src/getopt.c:555-612 | Both, for a whole scan that starts behind the program name. |
| Getopt.ResultByMarks | OSM/Assignments/First_Assignment/yams/src/getopt.c:555-612 | What the split is: each element is an option, the argument of the option before it, `--`, another element, or one behind `--`, as the element before it says; the first three kinds stand in front in their order, the last two behind. |
| Getopt.ArgumentFollows | OSM/Assignments/First_Assignment/yams/src/getopt.c:625-700 | An option that takes an argument is followed in the result by the element that followed it. |
| Getopt.Scanner.Scan | OSM/Assignments/First_Assignment/yams/src/getopt.c:555-612 | When -1 is returned argv is the options with their arguments (and `--`), then the non-options, element by element as ResultByMarks says, and optind is at the first non-option. |
| Getopt.Scanner.Next | OSM/Assignments/First_Assignment/yams/src/getopt.c:555-612 | One call either ends the scan in that state or stands at the next option. |
| Getopt.Scanner.Regroup | OSM/Assignments/First_Assignment/yams/src/getopt.c:571-574 | Moving the options found since keeps the split. |
| Getopt.Scanner.Collect | OSM/Assignments/First_Assignment/yams/src/getopt.c:579-581 | Skipped non-options join those skipped before. |
| Getopt.Scanner.Stop | OSM/Assignments/First_Assignment/yams/src/getopt.c:589-600 | `--` ends the options; all that follows are non-options. |
| Getopt.Scanner.Consume | OSM/Assignments/First_Assignment/yams/src/getopt.c:625-700 | Stepping over an option, and over its argument when it takes one, keeps the split. |
| PriorityQueue.Children | OSM/Assignments/Third_Assignment/queue/queue.c:17-29 | With parent i/2, left(0) = 1 and right(0) = 2 the children of i are left(i) and right(i), except that the root's only child is 1. |
| PriorityQueue.RootIsMax | OSM/Assignments/Third_Assignment/queue/queue.c:17-29 | array[i/2] >= array[i] for all 0 < i < count makes the root a maximum. |
| PriorityQueue.Queue.HeapUp | OSM/Assignments/Third_Assignment/queue/queue.c:39-44 | Restores the heap order above a new element and conserves the multiset. |
| PriorityQueue.Queue.HeapDown | OSM/Assignments/Third_Assignment/queue/queue.c:47-60 | Restores the heap order from the root down and conserves the multiset. |
| PriorityQueue.Queue.Grow | OSM/Assignments/Third_Assignment/queue/queue.c:79-94 | Doubles the array and keeps its elements, or fails and keeps the array. |
| PriorityQueue.Queue.Push | OSM/Assignments/Third_Assignment/queue/queue.c:98-120 | Adds one element to the multiset and keeps the heap, or fails and changes nothing. |
| PriorityQueue.Queue.Pop | OSM/Assignments/Third_Assignment/queue/queue.c:123-140 | Returns the maximum, takes it out of the multiset and keeps the heap; waits exactly when the queue is empty, which stays as it is. |
| PriorityQueue.DrainSorts | OSM/Assignments/Third_Assignment/queue/queue.c:123-140 | A sequence of pops that empties the queue yields its elements in descending order. |
| PriorityQueue.SortedDrains | OSM/Assignments/Third_Assignment/queue/queue.c:123-140 | Conversely the descending arrangement is what such pops yield. |
| PriorityQueue.Shutdown | OSM/Assignments/Third_Assignment/queue/bouncer.c:64-70 | The loop that pops as long as queue_pop returns takes out all elements, in descending order, and ends waiting on an empty queue. |
| PriorityQueue.Queue.constructor | OSM/Assignments/Third_Assignment/queue/queue.c:63-76 | An empty heap. |
| IoTable.OwnerExists | OSM/Assignments/First_Assignment/yams/src/simulator.c:237-256 | Every address of the I/O area lies in the range of exactly one device, after any sequence of additions. |
| IoTable.Simulator.AddDevice | OSM/Assignments/First_Assignment/yams/src/simulator.c:237-256 | The new device's range starts where the last one ends, the first one's at 0xB0008000. |
| IoTable.Simulator.Init | OSM/Assignments/First_Assignment/yams/src/simulator.c:316-344 | The backward fill writes each slot exactly once, last slot first, and each slot names the device that owns the word. |
| IoTable.Simulator.Lookup | OSM/Assignments/First_Assignment/yams/src/memory.c:165-173 | The table lookup reaches the unique device whose range holds the address. |
| Printing.FitsScratch | OSM/Assignments/Fifth_Assignment/kudos/kudos/lib/xprintf.c:130-179 | Every 64-bit number in base 8, 10 or 16 fits the 22-character scratch buffer. |
| Printing.DigitsMean | OSM/Assignments/Fifth_Assignment/kudos/kudos/lib/xprintf.c:138-152 | In base 8, 10 and 16 the digits are digits of the base, in the case asked for, stand for the number, and start with 0 for 0 alone. |
| Printing.PaddedMeans | OSM/Assignments/Fifth_Assignment/kudos/kudos/lib/xprintf.c:154-168 | The digits at the right end, zeros left of them up to the precision, blanks left of these up to the width, both counted as 22 when they are larger. |
| Printing.Reverse | OSM/Assignments/Fifth_Assignment/kudos/kudos/lib/xprintf.c:144-168 | The digit and padding loops fill the scratch buffer with the padded number, reversed, for any precision and width, and never beyond 22 characters. |
| Printing.PrintUint | OSM/Assignments/Fifth_Assignment/kudos/kudos/lib/xprintf.c:130-179 | The caller's buffer gets the padded number, cut to `size`, and nothing else changes. |
| Printing.PrintInt | OSM/Assignments/Fifth_Assignment/kudos/kudos/lib/xprintf.c:283-303 | Plain %d: sign and digits of any signed 32-bit number, the least one included. |
| Printing.PrintDecimal | OSM/Assignments/Fifth_Assignment/kudos/kudos/lib/xprintf.c:204-389 | The whole of "%d": the text and a zero behind it when both fit; else the text is cut, the zero takes the last place, and the result is -1. |
| Printing.Atoi | OSM/Assignments/Fifth_Assignment/kudos/kudos/lib/libc.c:220-249 | The value of the blanks, sign and digits at the start of the string. |
| Printing.ParseMeans | OSM/Assignments/Fifth_Assignment/kudos/kudos/lib/libc.c:220-249 | For blanks, perhaps a sign, digits, and something that is no digit: the number the digits stand for, negated behind a minus sign; 0 when there are no digits. |
| Printing.ParseDecimal | OSM/Assignments/Fifth_Assignment/kudos/kudos/lib/libc.c:220-249 | Reading a printed number back gives the number, whatever non-digit follows it. |
| Printing.PartialValues | OSM/Assignments/Fifth_Assignment/kudos/kudos/lib/libc.c:220-249 | While it is read back the value stays between 0 and the number, so no step overflows. |
| Printing.DecimalFits | OSM/Assignments/Fifth_Assignment/kudos/kudos/lib/xprintf.c:283-303 | The text of a signed 32-bit number has at most 11 characters. |
| Printing.PrintThenReadIff | OSM/Assignments/Fifth_Assignment/kudos/kudos/lib/xprintf.c:380-388 | atoi reads back what %d left in the buffer if and only if the number is 0 or its text is shorter than the buffer. |
| Printing.TwelveSuffice | OSM/Assignments/Fifth_Assignment/kudos/kudos/lib/xprintf.c:380-388 | So 12 characters are enough for every signed 32-bit number. |
| Printing.ElevenCut | OSM/Assignments/Fifth_Assignment/kudos/kudos/lib/xprintf.c:380-388 | And 11 are not: the least number reads back as -214748364. |

## Left out

- TFS mounting (tfs_init), tfstool's commands other than creating a volume, and little-endian builds of the kernel: `from_big_endian32` is the identity here, on which the unswapped store at tfs.c:315 depends.
- TFS calls run one at a time, under the filesystem's lock; device drivers appear only as requests that succeed or fail, and a failed write leaves its block as it was.
- TfsDriver.Tfs.Create: takes names of 1 to 15 characters and sizes of at least 0, which VFS guarantees (vfs.c:284-323, vfs.c:751).
- TfsDriver.Tfs.Open: takes a non-empty name, which VFS guarantees; an empty one would match a free entry.
- TfsDriver.Tfs.Remove: for a 127-block file tfs.c:458-459 reads one word past the inode before it tests the bound; that word is taken to be the first of the allocation buffer, and its value is not used; the name is non-empty as for Open.
- TfsDriver.Tfs.Read: a file id the range test lets through must be the inode block of a file, as tfs_open returns it; a stale id, or the number of blocks itself, which the test also accepts, is not modelled.
- TfsDriver.Tfs.Write: the same for its file id.
- TfsIds.IdRunRefines: an id kept after its file was removed is not covered; nothing stops a caller from using one.
- Tfs methods are split where the proof is (FindSlot, Fill, AllocateData, WriteOut, Release, FreeBlocks, ReadBlocks, ReadChunk, WriteBlocks, WriteChunk), and so are sleepq_wake_all and scheduler_schedule (WakeRound, RetireCurrent, DispatchFirst), queue_push (Place) and print_uint (ReverseDigits, Reverse, Pad); the C functions are not.
- An interrupt handler appears as the wakes it makes, one at a time; what drivers do besides is not modelled, nor is the scheduler run from the interrupt of a wake, which is a Schedule step of its own.
- Context switches, interrupt entry, timers and the spinlocks themselves: a region under a spinlock is one step. The early return of sleepq_add with interrupts enabled (sleepq.c:74-75) is not modelled, since its callers disable them.
- ThreadTables.ThreadTable.SleepqMark: requires a resource other than 0, which stands for not sleeping, and a thread other than the idle one, as the code asserts.
- SemaphoreTables.SemaphoreTable.P: one region with the sleep queue lock free; Semaphores interleaves its steps with other CPUs.
- SemaphoreTables.SemaphoreTable.V: the same.
- SemaphoreTables.SemaphoreTable.Destroy: requires that no thread waits, as its documentation asks.
- Heaps.Heap.Malloc: requires a request for which malloc's tests are right on every free block it looks at; HalfInRange says that sizes up to 2^31 always are such requests, TestsExactIff and HugeRequest what happens otherwise. The heap is shorter than 2^31 bytes and a whole number of words.
- Heaps.Heap.Free: requires a pointer that was handed out and not freed since.
- Heaps.Heap.Realloc: what a growing copy reads beyond the old block is arbitrary, so nothing is said about the bytes behind the common prefix; the request is in range as for Malloc.
- Heaps.Heap.Calloc: says nothing about requests whose product wraps beyond the wrapped size; the product is in range as for Malloc.
- The other YAMS instructions, exceptions, breakpoints and devices. An access that translation sends to the I/O area or to a memory-mapped device is only a result here.
- YamsMemory.UnalignedStore: both words lie in main memory and may be stored to; memory is a function from addresses to bytes, not an array changed in place.
- YamsMemory.UnalignedRoundTrip: the same.
- YamsLlSc.ScIsAtomic: only these instructions write memory: devices that do so by themselves (DMA) break no links in the source either, and are not modelled.
- YamsLlSc.CounterExact: the same.
- YamsLlSc.Hardware.StoreConditional: to a device register the trial write of size 0 ends the simulator (memory.c:328-330); here it is an access whose effect is not modelled, like every access to the I/O area.
- YamsTlb.WriteThenRead: for an Index below 16; beyond it the two instructions do nothing.
- VfsCalls.OperationsOrderly: an operation is the list of its steps on one of its paths; the contents of table rows are in VfsTables, what happens to files is in the TFS modules, and where vfs_read, vfs_write or vfs_close assert that a file is open a call on a closed one just ends.
- VfsReturns.StrandedForever: a destroyed semaphore is taken not to be created again, and the freed page of the filesystem not to be used again, while a call waits.
- VfsTables.Vfs.OpenReserve: the region under both locks; the filesystem's answer, which comes between it and OpenFinish, is a parameter.
- VfsTables.Vfs.Close: of a file that is open, as vfs_verify_open asserts; the filesystem's close always answers VFS_OK, as TFS does.
- The methods of VfsTables.Vfs are the regions of each call; one that needs `ops > 0` stands between its vfs_start_op and vfs_end_op, and a refused call is StartOp's result.
- VfsTables.Vfs.Mount: name distinctness only for names of at most 15 characters; MountApartIff covers the rest.
- Moving the seek position (vfs_seek and the ends of vfs_read and vfs_write), path parsing and the mounting of volumes found on disks.
- Getopt.Scanner.Scan: decoding one option is the parameter `takes`, whether it uses the next element; long options, environment flags, and the other two orderings are not modelled.
- PriorityQueue.Queue.Pop: sequential; the locking, including the early unlock at queue.c:130 and the return with the lock held at queue.c:102-107, is not modelled, and waiting is only a result.
- PriorityQueue.Queue.Grow: array lengths are unbounded.
- IoTable.Simulator.AddDevice: ranges are whole words and the I/O area ends below 2^32.
- Printing.PrintDecimal: the format is "%d" alone.
- Printing.PrintInt: no flags, width or precision; parsing them, the '+' flag and the other conversions of vxnprintf are not modelled.
- The ARK simulators, the other assignments' copies of the same code, shells, test programs, drivers, process management and the rest of the kernel.
