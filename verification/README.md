# A verified model of the xv6 kernel's core

Dafny models of the parts of this xv6 (x86) kernel whose correctness does not show in any one
function, with proofs over every input, every run or every reachable state. Nothing was executed;
everything stated here is what the verifier checks. `dafny verify dfyconfig.toml` checks the whole
project.

| file | models |
|---|---|
| `LogProtocol.dfy` | the write-ahead log as a step machine, with a crash possible between any two block writes |
| `BufferCache.dfy` | bio.c: the LRU list, reference counts and flags over an in-memory disk |
| `Log.dfy` | log.c on that cache; every method extends a run of the machine |
| `Inode.dfy`, `Bitmap.dfy` | what an inode's block map means |
| `FileSystem.dfy` | fs.c from `balloc` to `writei`, and `filewrite` |
| `LogBudget.dfy` | which of these keep to the log space reserved for them |
| `Links.dfy` | link counts under concurrent `link`, `unlink`, `create` and `iput` |
| `Umalloc.dfy` | the user-level allocator |
| `Vm.dfy` | page allocator, page tables, `allocuvm`, `deallocuvm`, `freevm`, `copyuvm` |
| `ProcTable.dfy` | the process table: `fork`, `exit`, `wait`, `kill`, `wakeup` |
| `Scheduler.dfy` | handing the CPU over under `ptable.lock`, for any number of CPUs |
| `SleepLock.dfy` | sleep-locks, for any number of processes |
| `Pipe.dfy` | pipes: the ring buffer and the sleep protocol |
| `Shell.dfy` | the shell's parser, and what it does to the line |
| `ShellGrammar.dfy` | the language that parser accepts, and what its sentences mean |
| `Grep.dfy` | grep's regular expression matcher |
| `Kernel.dfy`, `Blocks.dfy` | shared types and constants |

Code that updates state in place is modelled by classes whose methods do the same updates, each
proved against a specification on values. Protocols between processes are step machines: a step is
a stretch of code that nothing else can interleave with, because of the locks it holds; a test made
without the lock, as in `log_write` and `iput`, is a step of its own. A panic is
a halt. Where it is a caller's mistake the condition is a `requires`; where it depends on load
("no buffers", "out of blocks", "no inodes") or there is no memory, the method returns a flag and
says how much it needs and that it fails exactly for less; where the code's own invariants rule it
out, that is proved.

## Where the code falls short of a promise

These are stated as lemmas with a concrete run or input, next to the exact condition under which
the promise holds.

* `log_write` tests for space before it takes the lock, so two calls can pass with room for one.
  `mkfs.c` makes a log of `LOGSIZE` blocks, header included; there the commit then overwrites the
  first inode block before its header is written, with every operation within its reservation
  (`LogProtocol.SmallLogOverwrites`), and `log_write` can also panic (`SmallLogPanics`). With a
  larger log area both are excluded for operations within their budgets: `AtomicExactly` says that
  this is the exact condition. An operation over its budget can still make the header outgrow its
  array (`LargeLogOverflows`) or another operation panic (`OverBudgetPanics`).
* `log_write` makes its space check before it looks whether the block is already logged, so logging
  a block again can panic (`AbsorbedWritePanics`). The comment on `MAXOPBLOCKS` in `param.h` counts
  blocks; what is safe is that many calls (`EarlyCallsNeverPanic`), or any call made before the
  budget is used up (`BelowBudgetNeverPanics`). `filewrite` makes no other calls
  (`LogBudget.FilewriteNeverPanics`).
* Freeing a large file is one transaction however many bitmap blocks it touches. It stays within
  `MAXOPBLOCKS` exactly on disks whose data area has bits in fewer than `MAXOPBLOCKS` bitmap blocks
  (`LogBudget.FreeFitsExactly`).
* A killed writer that has filled a pipe returns without waking the readers
  (`Pipe.KilledWriterLeavesReader`); `ReaderAsleepMeansEmpty` says that a run goes wrong exactly then.
* A file entered in a directory that has been unlinked but is still open ends up with a link count
  and no name (`Links.LostInode`, and from every state `LostFile`); `LostExactly` says that this is
  the only case. A subdirectory made there keeps the counts right and the directory from ever being
  freed (`OrphanedDirectory`).
* A directory can be freed while .. of an unlinked but open subdirectory still names it
  (`Links.DanglingDotDot`); `DotDotExactly` says when.
* `iput` tests for the last reference before it drops its own, so the last two holders of an unlinked
  inode can both leave it to the other (`Links.LeakedInode`); `LeakExactly` says when.
* `growproc` takes a new size of 0 for a failure: a process that gives back all its memory keeps its
  old size (`Vm.Pages.Growproc` gives this as the only case in which size and mapping part).
* `kill` does not look at the state of a slot and `allocproc` does not clear the flag, so a process
  can be born killed (`ProcTable.BornKilled`); `BornKilledExactly` says when.
* `malloc` of more than 2^32 - 8 bytes wraps around and returns a block that is too small
  (`Umalloc.HugeRequestGetsOneUnit`); `NUnitsEnough` gives the exact bound.
* `sched` panics exactly if its caller holds a second spinlock (`Scheduler.SchedPanicsExactly`).

## Model

| member | source | states |
|---|---|---|
| `LogProtocol.HeaderRoundTrip` | log.c:84-113 | what `write_head` stores is what `read_head` loads, for every list of distinct home blocks that fits |
| `LogProtocol.InstallKeepsCommitted` | log.c:68-82 | recovery is idempotent: copying any one logged block home does not change what a later recovery produces |
| `LogProtocol.CopyKeepsCommitted` | log.c:176-190 | while the header is empty, writes to log blocks do not change what recovery would produce |
| `LogProtocol.HeaderCommits` | log.c:98-113 | one header write over filled log blocks switches the recoverable state to the new contents |
| `LogProtocol.ClearKeepsCommitted` | log.c:192-202 | erasing the header after installation keeps the recoverable state, which is then the home blocks themselves |
| `LogProtocol.StepRefines` | log.c:115-233 | every step that keeps the log within its bounds, crashes included, is a step of an atomic store; only the write of a non-empty header changes what is durable, and it makes all that clients see durable at once |
| `LogProtocol.RunInv` | log.c:115-233 | in every state of every run that has stayed within the bounds of the log, the state a recovery would produce is the durable state of the atomic store |
| `LogProtocol.CrashAtomicity` | log.c:115-233 | in every run in which each `log_write` that appends still finds room when it has the lock: whenever the system is up, after any number of crashes also during recovery, the home blocks are those of the last committed group of operations as a whole; a commit happens with no operation outstanding |
| `LogProtocol.RoomyExactly` | log.c:218-230 | a run leaves the bounds of the log exactly if some `log_write` appends although the test it made without the lock would fail by then |
| `LogProtocol.OverwritesExactly` | log.c:176-190 | in every run: the first copy of `write_log` past the log area overwrites the block behind it before any header is written, and crash atomicity survives exactly if that block has the same contents already |
| `LogProtocol.BudgetedIsRoomy` | log.c:124-233 | with a log area of more than `LOGSIZE` blocks and operations within their budgets every run stays within bounds and is crash-atomic |
| `LogProtocol.AtomicExactly` | log.c:115-233 | for every layout: operations within their budgets are crash-atomic in every run, if and only if the log area has more than `LOGSIZE` blocks (or none to log in) |
| `LogProtocol.SmallLogOverwrites` | log.c:218-223 | for every log area of 2 to `LOGSIZE` blocks, the one mkfs makes included, a run with all operations within budget in which two calls pass the test before either appends, and the commit overwrites the block behind the log |
| `LogProtocol.LargeLogOverflows` | log.c:218-230 | a run with a large log and an operation over its budget in which the header outgrows its array |
| `LogProtocol.ReservationSound` | log.c:124-141 | in every run logged blocks are distinct and no operation is active during a commit; as long as no operation logs more than `MAXOPBLOCKS` blocks, logged blocks plus the unused reservations of all outstanding operations never exceed `LOGSIZE` |
| `LogProtocol.StepFits` | log.c:124-233 | every step of operations within their budgets keeps room in the log for all that is still promised |
| `LogProtocol.RunFits` | log.c:124-233 | the same over every run of such operations, whatever the layout |
| `Kernel.ReservedIs` | log.c:132 | what k operations have reserved is the product that the test of `begin_op` compares |
| `LogProtocol.PanicExactly` | log.c:218-219 | with a log area of more than `LOGSIZE` blocks and all operations within their budgets, the space panic happens exactly when the log is full, and every active operation has then used its budget up |
| `LogProtocol.BelowBudgetNeverPanics` | log.c:204-233 | in every run whose operations keep to their budgets, a call by one that has logged fewer than `MAXOPBLOCKS` blocks never panics |
| `LogProtocol.EarlyCallsNeverPanic` | log.c:204-233 | in every run whose operations make at most `MAXOPBLOCKS` calls of `log_write` each, none of these calls panics |
| `LogProtocol.LoggedAtMostCalls` | log.c:224-230 | an operation has logged no more different blocks than it has made calls |
| `LogProtocol.SmallLogPanics` | mkfs.c:25 | a run with the layout mkfs builds in which an operation within its budget meets the panic |
| `LogProtocol.AbsorbedWritePanics` | log.c:218-230 | a run with a large log in which logging an already logged block panics |
| `LogProtocol.OverBudgetPanics` | log.c:218-219 | a run with a large log in which an operation that has logged nothing meets the panic, because another one has logged too much |
| `LogProtocol.CommitHeaderInv` | log.c:192-202 | the header write of `commit` makes exactly what clients see the recoverable state, and keeps the invariant |
| `LogProtocol.InstallBlockInv` | log.c:68-82 | installing a block, in a commit or in recovery, keeps the invariant and the recoverable state |
| `LogProtocol.RecordInv` | log.c:223-232 | the locked part of `log_write`, however long after the test, keeps the crash invariant if it stays within bounds |
| `LogProtocol.CrashRefines` | log.c:115-122 | a crash at any point loses what is volatile and nothing that is durable |
| `BufferCache.Unlink` | bio.c:132-133 | taking a buffer out of the doubly linked list leaves a list of the others in the same order |
| `BufferCache.PushFront` | bio.c:134-137 | linking a buffer in at the head keeps the list well formed in both directions |
| `BufferCache.SameContents` | bio.c:81-91 | recycling a clean buffer, or reading a block in, changes nothing a client of the cache can see |
| `BufferCache.Cache.constructor` | bio.c:38-56 | `binit` links all buffers into one list, last one first, and the cache shows the disk |
| `BufferCache.Cache.Bget` | bio.c:58-93 | finds the one buffer of the block or recycles the least recently used clean, unreferenced one; fails exactly if there is neither; never changes the visible contents |
| `BufferCache.Cache.FindCached` | bio.c:69-76 | the forward scan misses no cached block |
| `BufferCache.Cache.FindFree` | bio.c:81-91 | the backward scan returns the recyclable buffer nearest the tail |
| `BufferCache.Cache.Iderw` | memide.c:35-60 | a dirty buffer goes to its disk block, any other is filled from it; the visible contents stay the same |
| `BufferCache.Cache.Bread` | bio.c:95-106 | returns the block's buffer locked and holding the visible contents of the block, and makes no dirty buffer clean; fails exactly if the block is not cached and no buffer can be recycled |
| `BufferCache.Cache.Modify` | buf.h:1-14 | storing into a held buffer changes the visible contents of its block only |
| `BufferCache.Cache.Bwrite` | bio.c:108-116 | puts the buffer on disk, changes nothing visible, and unpins exactly that block |
| `BufferCache.Cache.Pin` | log.c:231 | the dirty flag set by `log_write` adds exactly that block to the blocks that cannot be recycled |
| `BufferCache.Cache.Brelse` | bio.c:118-141 | the last release moves the buffer to the front; contents and pinned blocks are unchanged |
| `BufferCache.Cache.MoveToFront` | bio.c:130-138 | the six link updates of `brelse` permute the list as intended |
| `BufferCache.PairKeeps` | log.c:183-188 | a copy through the cache of a pinned block and a clean one leaves buffers to recycle if there were any, and otherwise recycles none |
| `Log.WriteAheadLog.BeginOp` | log.c:124-141 | admits an operation exactly if no commit runs and a whole further reservation fits |
| `Log.WriteAheadLog.ModifyBuffer` | fs.c:499-502 | a client's store into a held buffer is a step of the machine |
| `Log.WriteAheadLog.RecordBlock` | log.c:224-230 | the scan of the header adds a block exactly if it is not there |
| `Log.WriteAheadLog.TestSpace` | log.c:218-221 | the test is exactly the panic condition at that moment, and a step of its own |
| `Log.WriteAheadLog.Record` | log.c:223-232 | the rest, any time after the test, if there still is room: records and pins the block, so unlocked dirty buffers are exactly those in the header |
| `Log.WriteAheadLog.LogWrite` | log.c:204-233 | both parts without interruption: panics exactly if the log is full, and otherwise records and pins the block |
| `Log.WriteAheadLog.WriteLog` | log.c:176-190 | copies every logged block from the cache to the log area without changing what clients see; fails exactly if no buffer can be recycled and one of those log blocks is not cached |
| `Log.WriteAheadLog.HeaderImage` | log.c:102-111 | the loop of `write_head` builds the encoded header |
| `Log.WriteAheadLog.WriteHead` | log.c:98-113 | the header block on disk becomes the encoding of the in-memory header; fails exactly if there is no buffer for it |
| `Log.WriteAheadLog.CommitPoint` | log.c:192-202 | after the header write a recovery would produce what clients see |
| `Log.WriteAheadLog.InstallTrans` | log.c:68-82 | installs all logged blocks; at every point in between a recovery would produce the same state; after `write_log` it never lacks a buffer, and with an idle cache it takes two |
| `Log.WriteAheadLog.EraseLog` | log.c:192-202 | after the header is cleared the home blocks are the committed state and no buffer is pinned |
| `Log.WriteAheadLog.Commit` | log.c:192-202 | when `commit` returns, the home blocks on disk are what clients saw when it began; buffers that readers hold meanwhile are left alone; with anything logged it fails exactly if no buffer can be recycled and the header or a log block it writes is not cached |
| `Log.WriteAheadLog.EndOp` | log.c:143-174 | the last outstanding operation commits the group, and fails exactly as `commit` does; any other leaves disk and header alone |
| `Log.WriteAheadLog.ReadHead` | log.c:84-96 | loads the block numbers recorded on disk and changes nothing |
| `Log.WriteAheadLog.RecoverFromLog` | log.c:115-122 | leaves exactly the committed state of the disk it was started on, with an empty header; with an idle cache it takes one buffer, or two if the header names blocks, and fails exactly with fewer |
| `Log.WriteAheadLog.constructor` | log.c:53-66 | a machine that has just booted, on any disk with a well-formed header |
| `InodeMap.WordOfSet` | fs.c:390-394 | storing an indirect entry changes that entry and no other, in the bytes of the block |
| `InodeMap.AddEntry` | fs.c:385-397 | adding a block at the end of an indirect block keeps ownership and every byte of every file |
| `InodeMap.WriteData` | fs.c:478-511 | overwriting a file's block changes the bytes of that block of that file, and no others |
| `InodeMap.PutBytes` | fs.c:498-504 | a chunk inside one block changes exactly those bytes of that file |
| `FileSystem.NoHoles` | fs.c:370-400 | between operations file block k is mapped exactly if k * BSIZE lies below the size |
| `FileSystem.OwnedExactlyOnce` | fs.c:53-95 | a bit of the data area is set exactly if some inode or indirect block refers to the block, and no block is referred to twice |
| `FileSystem.BlocksConserved` | fs.c:53-95 | every clear bit is that of a data block, and free blocks and blocks in use add up to the data area |
| `FileSystem.FirstBitmap` | mkfs.c:237-251 | the loop of mkfs sets exactly the bits of the first blocks |
| `FileSystem.FileSys.constructor` | mkfs.c:93-115 | a new disk, with every inode free and the bits of the metadata blocks set, meets the invariant and is settled |
| `FileSystem.FileSys.Balloc` | fs.c:55-78 | takes the lowest free block and zeroes it; fails exactly if there is none, and else leaves one clear bit fewer |
| `FileSystem.FileSys.FindFree` | fs.c:62-76 | the two nested scans over the bitmap find the lowest clear bit |
| `FileSystem.FileSys.Bfree` | fs.c:80-95 | clears that bit only |
| `FileSystem.FileSys.Bmap` | fs.c:370-400 | the block of file block bn; allocates nothing if it is mapped; otherwise extends the file by it, keeps every byte of every file, and logs at most the stated blocks; fails exactly with fewer clear bits than it allocates blocks, the indirect block included |
| `FileSystem.FileSys.WriteChunk` | fs.c:498-504 | one turn of the loop of `writei` puts the chunk into the file and touches no other byte |
| `FileSystem.FileSys.WriteBytes` | fs.c:498-504 | the whole loop, with an account of all blocks it logs and takes; fails exactly with fewer clear bits than the range needs |
| `FileSystem.FileSys.Iupdate` | fs.c:216-236 | the inode on disk becomes the one in memory |
| `FileSystem.FileSys.Writei` | fs.c:478-511 | for all 32-bit off and length: -1 exactly if the range starts beyond the size or ends beyond the largest file; otherwise it fails exactly if fewer bits are clear than the range needs blocks, counted from size, off and length alone, indirect block included; if it does not fail the file is spliced with the source, all other files are unchanged, inodes on disk equal those in memory, all but the last block logged are within the loop's bound, and exactly so many bits fewer are clear |
| `FileSystem.FileSys.Readi` | fs.c:449-476 | for all 32-bit off and n: -1 exactly if off is beyond the size or off + n wraps; otherwise that slice of the file; nothing is allocated or changed |
| `FileSystem.FileSys.ReadChunk` | fs.c:469-474 | one turn of the loop of `readi` finds its block mapped |
| `FileSystem.SpliceReadBack` | fs.c:449-511 | reading what has been written gives it back |
| `FileSystem.FileSys.WriteThenRead` | fs.c:449-511 | whenever `writei` succeeds, which for a range within bounds is exactly with enough clear bits, `readi` of the same range returns what was written |
| `FileSystem.SpliceTwice` | file.c:135-152 | writing two adjacent pieces one after the other is writing them as one; the loop of `filewrite` rests on it |
| `FileSystem.NeededInTwo` | file.c:135-152 | writing a range in pieces takes as many blocks as writing it at once |
| `FileSystem.WriteEffect` | fs.c:478-511 | from bytes to whole files: the written file is spliced, every other file is the same sequence |
| `FileSystem.FileSys.Itrunc` | fs.c:402-435 | frees exactly the blocks of that inode, each with its bit set before, leaves every byte of every other file, and logs exactly the bitmap blocks of its blocks and its inode block |
| `FileSystem.FreeStep` | fs.c:414-430 | the next block to be freed still has its bit set: "freeing free block" is unreachable |
| `FileSystem.TruncatedInv` | fs.c:402-435 | what the two loops leave satisfies the ownership invariant |
| `FileSystem.FileSys.Ialloc` | fs.c:190-214 | the lowest free inode becomes an empty file; fails exactly if there is none |
| `FileSystem.FileSys.FreeInode` | fs.c:339-345 | the inode and exactly its blocks become free, on disk as in memory; what is logged is what `itrunc` logs |
| `FileSystem.CostBound` | fs.c:478-511 | the blocks the loop of `writei` logs, counted: data, one bitmap block for every allocation, the indirect block |
| `FileSystem.ChunkFits` | file.c:127-133 | the constant in `filewrite` keeps every chunk, at any offset up to the size, within `MAXOPBLOCKS` different blocks, and within one less before the inode is written |
| `FileSystem.ChunkTight` | file.c:127-133 | there are a size and an offset at which the bound evaluates to `MAXOPBLOCKS`, and for a chunk one block larger to more |
| `FileSystem.FileSys.WriteInTransaction` | file.c:140-145 | one transaction of `filewrite` stays within its reservation, and only its last `log_write`, that of the inode, can use it up; fails exactly as `writei` does |
| `FileSystem.FileSys.Filewrite` | file.c:115-156 | returns n or -1, -1 exactly if the range is out of bounds, and then what has been written is the whole chunks below the largest file size; fails exactly if fewer bits are clear than that takes blocks |
| `LogBudget.FilewriteNeverPanics` | file.c:126-145 | in every run of the log in which all operations are transactions of `filewrite` or within their budgets otherwise, no `log_write` of such a transaction panics |
| `LogBudget.MapsWithin` | fs.c:402-435 | the blocks of a file have their bits in no more bitmap blocks than the data area spans |
| `LogBudget.FreeFitsExactly` | fs.c:402-435 | freeing a file stays within `MAXOPBLOCKS` blocks in every state of a file system, if and only if its data area has bits in fewer than `MAXOPBLOCKS` bitmap blocks |
| `LogBudget.OneFile` | fs.c:402-435 | for any distinct direct blocks there is a good file system with a file of exactly these |
| `Links.UnlinkedExactly` | sysfile.c:183-239 | a directory whose lock is free has been unlinked exactly if its count is zero, and is then empty |
| `Links.LinkStartInv` | sysfile.c:133-142 | counting a link before entering it keeps the account |
| `Links.LinkFinishInv` | sysfile.c:146-151 | entering the link turns a pending count into a name |
| `Links.UncountInv` | sysfile.c:158-162 | the error path of `sys_link` and the end of `sys_unlink` take back exactly one pending count |
| `Links.UnlinkEntryInv` | sysfile.c:207-225 | erasing an entry, of a file or of an empty directory, keeps the account of the inode and of the parent |
| `Links.CreateDirInv` | sysfile.c:260-278 | a new directory counts once for its name and once in its parent for .. |
| `Links.CreateFileInv` | sysfile.c:260-278 | a new file counts once for its name |
| `Links.FreeInv` | fs.c:334-347 | freeing an inode keeps the account of all others |
| `Links.RunInv` | sysfile.c:117-283 | in every state of every run that adds no entry to an unlinked directory, each link count is its names, its linked subdirectories and the calls in progress |
| `Links.CountAtRest` | sysfile.c:117-283 | with no call in progress the link count of an inode is the number of entries naming it, . and the .. of unlinked directories excluded |
| `Links.NoDanglingName` | sysfile.c:117-283 | every entry other than .. names an allocated inode, at all times |
| `Links.LinkedParent` | sysfile.c:183-239 | .. of a linked directory names an allocated, linked directory, at all times |
| `Links.DotDotExactly` | sysfile.c:183-239 | throughout a run every .. names an allocated inode, if and only if no `iput` frees the parent of another directory that is still open |
| `Links.DanglingDotDot` | sysfile.c:183-239 | a run in which that happens: a and a/b are unlinked while b is open |
| `Links.FreedOnlyUnused` | fs.c:334-347 | `iput` frees an inode only when no entry other than .. names it, no call is using it, no other reference is left and no linked directory has it as its parent |
| `Links.LeakExactly` | fs.c:334-351 | throughout a run every inode without links is held by somebody who can still free it, if and only if no last `iput` makes its test while another one is between its test and its decrement |
| `Links.LeakedInode` | fs.c:334-351 | a run in which that happens: an inode stays allocated with no name and no reference |
| `Links.UnlinkNeverPanics` | sysfile.c:211-212 | the panic on a link count below one is unreachable |
| `Links.LostFile` | sysfile.c:146-150 | from every state: after a file, new or old, is entered in an unlinked directory, closing that directory leads to a state where the directory is gone and the file counts one link more than anything accounts for |
| `Links.LostExactly` | sysfile.c:146-150 | after a file is entered in a directory the link counts survive all opening and closing of it, if and only if it has not been unlinked |
| `Links.OrphanedDirectory` | sysfile.c:269-278 | a subdirectory made in an unlinked directory keeps every count exact, but the unlinked directory, which no entry names, is then never freed by closing it |
| `Links.LostInode` | sysfile.c:241-283 | a run without that care that ends with a link count no name accounts for |
| `Umalloc.InsertOk` | umalloc.c:30-43 | linking a block in keeps the list circular and in address order, and every unit with its owner |
| `Umalloc.MergeOk` | umalloc.c:33-42 | merging two touching blocks keeps both, and leaves the result apart from the next block |
| `Umalloc.RemoveOk` | umalloc.c:76-77 | handing out a whole block keeps list and ownership |
| `Umalloc.SplitOk` | umalloc.c:78-82 | handing out the upper end of a block keeps list and ownership |
| `Umalloc.FreedEffect` | umalloc.c:24-44 | `free` gives back exactly the units of the block, disturbs no other live block, and leaves a large enough block at `freep` or right after it |
| `Umalloc.PayloadFree` | umalloc.c:84 | whatever a program writes into the data of its blocks, the allocator's state stays good |
| `Umalloc.NUnitsEnough` | umalloc.c:69 | the block holds nbytes if and only if rounding up does not wrap around, and is then the smallest such |
| `Umalloc.HugeRequestGetsOneUnit` | umalloc.c:69 | the largest request gets a block without data |
| `Umalloc.AheadDecreases` | umalloc.c:30-32 | the search loop of `free` terminates on every list |
| `Umalloc.ToGoStep` | umalloc.c:74-89 | the search loop of `malloc` passes every free block once |
| `Umalloc.Heap.constructor` | umalloc.c:21-22 | the heap of a program that has not allocated anything |
| `Umalloc.Heap.Free` | umalloc.c:24-44 | the block becomes free and nothing else changes hands; base, free and live blocks stay a partition, the list in address order with no two free blocks touching |
| `Umalloc.Heap.FindPlace` | umalloc.c:30-32 | finds the last free block below the freed one |
| `Umalloc.Heap.Morecore` | umalloc.c:46-61 | what sbrk gives becomes free, and a request of that size now fits at or after `freep` |
| `Umalloc.Heap.Search` | umalloc.c:74-88 | finds a block that fits if there is one; asks sbrk exactly if there is none, and at most once |
| `Umalloc.Heap.Take` | umalloc.c:75-84 | hands out exactly the units asked for, all free before |
| `Umalloc.Heap.Malloc` | umalloc.c:63-90 | 0 exactly if no free block fits and sbrk fails; otherwise a new live block of exactly the units needed, disjoint from all live blocks, whose contents are untouched |
| `Umalloc.Heap.Store` | umalloc.c:84 | a program's own writes keep the heap good |
| `Vm.Pages.Kalloc` | kalloc.c:79-95 | returns a free frame, or nothing exactly if there is none |
| `Vm.Pages.Kfree` | kalloc.c:54-77 | the frame, which must not be free, becomes free |
| `Vm.Pages.constructor` | kalloc.c:31-37 | the allocator before `kinit1`: an empty list, every frame the kernel's |
| `Vm.Pages.Freerange` | kalloc.c:46-53 | exactly the whole pages of the range become free, in this order, for all addresses |
| `Vm.Pages.Walk` | vm.c:32-55 | finds or makes the table for an address without changing any translation; takes one frame exactly if the table is missing; fails exactly if it is missing and none may be made or no frame is free, and then changes nothing |
| `Vm.Pages.MapPage` | vm.c:57-80 | maps one user page and changes no other translation and no other frame; fails exactly if its table is missing and no frame is free |
| `Vm.Pages.MapRange` | vm.c:57-80 | maps a range of the kernel's part page by page; fails exactly with fewer free frames than tables missing below it |
| `Vm.Pages.Setupkvm` | vm.c:117-136 | a directory from free frames with all kernel mappings and an empty user part; takes one frame and one for each directory index the mappings meet, and fails exactly with fewer, every frame back |
| `Vm.Pages.Allocuvm` | vm.c:219-249 | new zeroed pages in frames that were free, everything else as before; fails exactly if the new size reaches the kernel or fewer frames are free than new pages and missing tables, and then the user mapping and all user frames are as before |
| `Vm.SizedAbsent` | vm.c:71-72 | growing a process of which exactly the pages below its size are mapped never meets a mapped page: the panic "remap" is unreachable |
| `Vm.AllocSized` | vm.c:219-249 | `allocuvm` keeps it that exactly the pages below the size are mapped, on success and on failure |
| `Vm.SizedDropped` | vm.c:251-279 | so does `deallocuvm` |
| `Vm.SizedCopied` | vm.c:313-345 | and `copyuvm` gives it to the child |
| `Vm.SizedPresent` | vm.c:324-327 | `copyuvm` finds every page it looks for: its two panics are unreachable |
| `Vm.Pages.Growproc` | proc.c:166-183 | for all sizes and changes: when it succeeds, and that afterwards exactly the pages below the size are mapped, unless the whole of a process is given back |
| `Vm.GrownDropped` | vm.c:233-247 | growing part of the way and dropping the range again restores the user part |
| `Vm.Pages.Deallocuvm` | vm.c:251-279 | skipping missing tables as a whole has the effect of a page-by-page loop: exactly the mapped frames of the range become free |
| `Vm.SkipTable` | vm.c:266-268 | below a missing table there is nothing to free |
| `Vm.Pages.Freevm` | vm.c:281-298 | every user frame, every table and the directory become free, each once, and nothing else changes |
| `Vm.Pages.Copyuvm` | vm.c:313-345 | the child has the same bytes and flags at every page, in frames that were free, and nothing above; fails exactly if fewer frames are free than the directory, the tables that the kernel's mappings meet, the tables that n pages meet and n, and then every frame taken is back |
| `Vm.AllReturned` | vm.c:342-344 | freeing all that a half-made address space has taken restores the ownership of every frame |
| `Vm.CostCounts` | vm.c:43-52 | entering the pages of a range one by one makes as many tables as the range meets directory indices without one |
| `Vm.KmapCounts` | vm.c:106-136 | mapping ranges one after the other makes one table for each index met, however many ranges meet it |
| `Vm.CopyCost` | vm.c:323-340 | the kernel's mappings share no table with the user part: n pages take n frames and n / 1024 tables, rounded up |
| `ProcTable.ExitInv` | proc.c:260-279 | `exit` wakes the parent, passes the children to init and wakes init if one is a zombie, and keeps the invariant |
| `ProcTable.WaitReapInv` | proc.c:300-312 | reaping keeps the invariant |
| `ProcTable.WaitSleepInv` | proc.c:316-323 | going to sleep in `wait` after a scan without a zombie keeps the invariant |
| `ProcTable.NextInv` | proc.c:185-562 | every step of every process keeps the invariant |
| `ProcTable.RunInv` | proc.c:185-562 | the invariant holds in every state of every run from `userinit` on |
| `ProcTable.NoMissedExit` | proc.c:283-325 | nobody sleeps in `wait` while one of their children is a zombie |
| `ProcTable.AsleepExactly` | proc.c:482-562 | who sleeps on an address is still asleep on it at any later time of any run if and only if nobody has woken that address or killed them in between |
| `ProcTable.LiveParent` | proc.c:265-272 | every process but init, running or zombie, has a live parent |
| `ProcTable.ReapedOnce` | proc.c:300-312 | no pid is returned twice by `wait`, and whatever is returned has exited |
| `ProcTable.ReapedGone` | proc.c:300-312 | a pid that `wait` has returned is in no slot of the table, in any later state of any run |
| `ProcTable.ExitNotLost` | proc.c:327-377 | every pid that has exited has been returned, or is a zombie under a live parent |
| `ProcTable.NoStrayChildren` | proc.c:86-100 | a slot that is reused has no children from its previous life |
| `ProcTable.BornKilledExactly` | proc.c:95-98 | a new process starts its life killed if and only if a `kill` has hit its slot while that was unused or being filled in, since the last process there was reaped |
| `ProcTable.FlagHistory` | proc.c:544-562 | the flag of a slot without a process is set exactly if such a `kill` has happened |
| `ProcTable.BornKilled` | proc.c:544-562 | a run in which `kill(0)` does this |
| `ProcTable.Ptable.constructor` | proc.c:126-162 | the table after `userinit` |
| `ProcTable.Ptable.Allocproc` | proc.c:86-100 | takes the lowest unused slot and a fresh pid; fails exactly if the table is full |
| `ProcTable.Ptable.Fork` | proc.c:185-232 | succeeds exactly if there is a slot and memory; the child's pid is nobody else's; on failure no state and no parent has changed |
| `ProcTable.ForkUndisturbed` | proc.c:185-232 | with any steps of other processes in between, the child keeps its slot and its pid from `allocproc` on, has no parent yet, and nobody else has that pid |
| `ProcTable.Ptable.Wakeup1` | proc.c:519-530 | afterwards nobody sleeps on the channel, whatever kind it is; everybody who did is runnable and otherwise as before, and everybody else is as before |
| `ProcTable.Ptable.WakeupAll` | proc.c:532-539 | the same as a step of the machine, for a channel that is an address |
| `ProcTable.Ptable.KillPid` | proc.c:541-562 | marks the first slot with that pid, which is runnable afterwards if it slept, and changes nothing else; fails exactly if there is none |
| `ProcTable.Ptable.ExitProc` | proc.c:260-279 | the stretch of `exit` under the lock is the exit step |
| `ProcTable.Ptable.PassChildren` | proc.c:265-272 | the loop of `exit`: all children go to init, which is woken exactly if one of them is a zombie |
| `ProcTable.Ptable.Wait` | proc.c:283-325 | one round of `wait` and `new_wait`: reaps exactly if there is a zombie child, whose slot is then unused with every field cleared that the code clears, and no slot has the returned pid; fails only without children or when killed; otherwise sleeps |
| `Scheduler.SwitchInv` | proc.c:407-416 | switching to a process, back, and into the caller of `sched` keeps the invariant |
| `Scheduler.NextInv` | proc.c:387-478 | every step on every CPU keeps it |
| `Scheduler.RunInv` | proc.c:387-478 | it holds in every state of every run |
| `Scheduler.RunningIsOnOneCpu` | proc.c:387-421 | while `ptable.lock` is free a process is RUNNING exactly if it is some CPU's `proc`, and at most one's |
| `Scheduler.OneStackOneCpu` | proc.c:387-447 | no kernel stack is in use on two CPUs, at any time |
| `Scheduler.SwitchesToSavedContext` | proc.c:400-411 | the scheduler switches only to a saved context |
| `Scheduler.ZombieStackUnused` | proc.c:300-304 | when `wait` frees a kernel stack nothing runs on it |
| `Scheduler.LocksNeverPanic` | spinlock.c:24-68 | `acquire`, `release` and `popcli` never panic, although the thread that releases `ptable.lock` need not be the one that acquired it |
| `Scheduler.SchedPanicsExactly` | proc.c:423-447 | the four checks of `sched` fail exactly if its caller holds a spinlock besides `ptable.lock` |
| `Scheduler.InterruptFlagRestored` | spinlock.c:104-125 | a thread that leaves its outermost section has the interrupt flag it entered with |
| `Scheduler.FlagSurvivesSched` | proc.c:444-446 | that flag is not lost on the way through `sched`, even if the thread comes back on another CPU |
| `SleepLock.StepInv` | sleeplock.c:22-42 | every step of every process keeps the invariant |
| `SleepLock.RunInv` | sleeplock.c:22-42 | it holds in every state of every run, for any number of processes |
| `SleepLock.MutualExclusion` | sleeplock.c:22-32 | at most one process holds the lock |
| `SleepLock.NoLostWakeup` | proc.c:480-517 | whoever sleeps, or is past the test and about to, does so while the lock is held or a releaser has still to wake the sleepers |
| `SleepLock.HoldingSleepExact` | sleeplock.c:44-53 | what `holdingsleep` tests is exactly whether the caller holds the lock |
| `SleepLock.SleeperWillBeWoken` | sleeplock.c:34-42 | a sleeper in front of a free lock is never stuck: the releaser, or the process it waits for, can take its next step |
| `Pipe.EmptyTest` | pipe.c:106 | the counters are equal exactly if nothing is buffered, also after they wrap around |
| `Pipe.FullTest` | pipe.c:85 | the full test of `pipewrite` is exact, also after the counters wrap around |
| `Pipe.PipeBuffer.constructor` | pipe.c:22-57 | an empty pipe |
| `Pipe.PipeBuffer.Write` | pipe.c:84-94 | the loop of `pipewrite` in place is the filling of the ring that the machine steps use |
| `Pipe.PipeBuffer.Read` | pipe.c:113-117 | the copying loop of `piperead` in place is the draining of the ring that the machine steps use |
| `Pipe.FillOk` | pipe.c:84-94 | filling appends the bytes in order behind those buffered, whatever the counters have wrapped to, and stops early only with PIPESIZE bytes buffered |
| `Pipe.DrainOk` | pipe.c:113-117 | draining hands over the oldest bytes in order, fewer than asked only if the ring is then empty |
| `Pipe.NextInv` | pipe.c:59-121 | every section of every reader and writer keeps the invariant |
| `Pipe.RunInv` | pipe.c:59-121 | it holds in every state of every run, kills included: what readers have been handed is what was sent first, and the ring holds the rest |
| `Pipe.WriterAsleepMeansFull` | pipe.c:85-92 | a sleeping writer faces a full pipe that somebody can still read |
| `Pipe.ReaderAsleepMeansEmpty` | pipe.c:106-112 | throughout a run sleeping readers face an empty pipe that somebody can still write, if and only if no step is a silent fill: a killed writer filling the pipe without finishing while a reader sleeps |
| `Pipe.NeverBothAsleep` | pipe.c:77-121 | in runs without a silent fill readers and writers never wait for each other |
| `Pipe.WriteComplete` | pipe.c:77-99 | in every run, a `pipewrite` that returns has stored, in order, a prefix of its bytes, and all of them unless it was killed or nobody can read |
| `Pipe.ReadComplete` | pipe.c:101-121 | in every run, a `piperead` that returns has been handed the oldest bytes buffered, as many as asked or all there were; none at all only if killed or nobody can write |
| `Pipe.InOrder` | pipe.c:77-121 | in every state of every run, kills included, the bytes handed to readers so far, read out of the ring by wrapping counters, are the first of the bytes written, in order, and at most PIPESIZE fewer |
| `Pipe.OnlyGrows` | pipe.c:77-121 | what has been sent or handed over at any time begins what has been at any later time |
| `Pipe.ReadersLeftExactly` | pipe.c:85-96 | a write leaves a reader asleep in front of data exactly if a killed writer fills the pipe without finishing while a reader sleeps |
| `Pipe.KilledWriterLeavesReader` | pipe.c:86-89 | a run in which that happens |
| `Shell.SkipLoop` | sh.c:315-318 | the loop of `peek` skips white space only, and all of it |
| `Shell.WordLoop` | sh.c:297-298 | the loop of `gettoken` takes a longest run of word characters |
| `Shell.TokenIsWord` | sh.c:265-308 | a word token is a whole word of the line, bounded by white space, a symbol or the end |
| `Shell.LineWords` | sh.c:344-447 | every string of a parsed tree is a whole word of the line, and every command has room for its final 0 |
| `Shell.NulTerminate` | sh.c:449-493 | writes a NUL at the end of every word of the tree and nowhere else |
| `Shell.EndsOutsideWords` | sh.c:449-493 | none of these positions lies inside a word |
| `Shell.SameStrings` | sh.c:449-493 | after it every string of the tree is the text of its token |
| `Shell.ParseCommand` | sh.c:327-342 | for every line: the tree as runcmd sees it has the token texts, or the parser panics and the line is unchanged; `ShellGrammar.ParsesExactly` says which tree and when |
| `ShellGrammar.LineParsed` | sh.c:344-446 | a sentence of the grammar (simple commands with redirections before, between and after the words, groups, pipes nested to the right, lists, `&`) anywhere in a line is parsed into what it means, and the parser stops right after it |
| `ShellGrammar.LineRead` | sh.c:344-446 | whatever the parser accepts begins with a sentence of the grammar that means the tree it returns |
| `ShellGrammar.ParsesExactly` | sh.c:327-446 | for every line: it is accepted if and only if its tokens are a sentence of the grammar, and the tree is what that sentence means |
| `ShellGrammar.LexRender` | sh.c:265-320 | any tokens, `>>` among them, written with any white space between them that keeps them apart are read back |
| `ShellGrammar.Rendered` | sh.c:265-320 | every line is its tokens with white space around them |
| `ShellGrammar.Inverts` | sh.c:265-446 | every sentence of the grammar, with any such white space, is parsed into what it means |
| `ShellGrammar.AcceptedExactly` | sh.c:265-446 | the lines accepted are exactly these |
| `ShellGrammar.RoundTrip` | sh.c:327-446 | every tree of commands with at most MAXARGS - 1 words, redirections, pipes, lists and background jobs is rebuilt from its printed form |
| `ShellGrammar.Reparse` | sh.c:327-446 | printing what the parser accepted and parsing it again gives the same tree |
| `Grep.OneFirst` | grep.c:93-94 | a literal or dot takes one accepted character and leaves the rest |
| `Grep.StarFirst` | grep.c:98-106 | c* takes any number of accepted characters and leaves the rest |
| `Grep.EndOnly` | grep.c:91-92 | a final dollar matches the end only |
| `Grep.ShowParse` | grep.c:84-96 | reading a pattern as a list of items loses nothing: written out, the items are the pattern |
| `Grep.ParseShow` | grep.c:84-96 | a list of items is read back from its written form if and only if the end mark comes last, no literal dollar does, and no single character is followed by an item that begins with a star |
| `Grep.Match` | grep.c:72-82 | terminates, and is true exactly if some part of the text, its beginning after ^, can be cut according to the pattern |
| `Grep.MatchHere` | grep.c:84-96 | true exactly if a prefix of the text, all of it before a final dollar, can be cut according to the pattern |
| `Grep.MatchStar` | grep.c:98-106 | the same for a starred character in front of a pattern |

## Left out

- Boot and device code, trap entry, and memory ordering: the disk is a map with atomic block writes, `xchg` is atomic, memory is sequentially consistent.
- Fairness and liveness; how often the load-dependent panics happen.
- The inode cache (`iget`, `ilock`, `iunlock`, reference counts of cached inodes) in `FileSystem.dfy`: inodes are in memory once and operations on them do not overlap; `Links.dfy` has the references and overlapping calls.
- `FileSystem.dfy` collects the blocks handed to `log_write` instead of calling `Log.dfy`; the two meet in `LogBudget.dfy`.
- Log.WriteAheadLog.Commit: readers may hold buffers meanwhile, but not of the blocks it copies or of the log area, for which it would have to wait; the same holds for `WriteLog`, `WriteHead`, `CommitPoint`, `InstallTrans`, `EraseLog` and `EndOp`. Waiting for a buffer is the subject of `SleepLock.dfy`.
- BufferCache.Cache.Bread: the block's buffer is not locked by somebody else; waiting for it is the subject of `SleepLock.dfy`.
- FileSystem.FileSys.Bmap: no file block beyond the next unmapped one, which `writei` and `readi` never ask for; there the code would leave a hole.
- FileSystem.FileSys.Filewrite: nobody else writes to the file between two chunks.
- FileSystem.ChunkTight: says where the bound is met, not that some state and call log that many blocks.
- The byte layout of inodes on disk, device inodes, `dirlookup` and `dirlink` slot by slot, path lookup; directory entries in `Links.dfy` are a map from directory and name to inode.
- 16-bit link counts and 31-bit pids do not overflow in the model.
- Umalloc.Heap.Malloc: requests whose `sbrk` argument is not a positive `int`, and programs that call `sbrk` themselves with a size that is not a multiple of 8.
- Vm.Pages.Allocuvm: after a failed `mappages` the frame goes back before the pages already added, in the code after them; the order of the free list is not stated.
- `loaduvm`, `clearpteu`, `copyout`, `switchuvm`: they add nothing to frame ownership.
- ProcTable.Ptable.Fork: runs without interruption; what other processes can do between its parts is the subject of `ForkUndisturbed`. Open files, names and user registers of processes are not in the table.
- Times in `new_wait`, which the code does not define consistently.
- Reference counts of open files (`filealloc`, `filedup`, `fileclose`), which would add only easy members.
- The shell's execution of commands, and grep's line buffering.
