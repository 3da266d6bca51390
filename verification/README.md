# xv6 in Dafny

A model of the state-heavy parts of xv6 for RISC-V (with its added `fsinfo` system call) and proofs
of what they promise. Code that works in place is modelled by classes and methods with loops, proved
against functions on plain values; protocols between processes are step systems, and what is proved
of them holds in every state of every run. `dafny verify dfyconfig.toml` checks everything.

| file | what it models |
|---|---|
| `disk.dfy` | a disk of atomic blocks, and the list of all writes it has seen |
| `crash.dfy` | the redo log as a sequence of block writes: crashes at any point, recovery, recovery interrupted again |
| `bcache.dfy` | the buffer cache: LRU ring, reference counts, pins, valid bits |
| `log.dfy` | the log over the cache: begin, write, end, commit, recovery |
| `boot.dfy` | switching on over the disk a power failure left; a run that fills the log |
| `inodes.dfy`, `files.dfy` | the bitmap, inodes and their block maps, truncation, reading, writing, `filewrite`, `fsinfo` |
| `worst.dfy` | a write that uses a transaction's whole budget |
| `layout.dfy` | the file system as the words of a disk's blocks, and crashes during its transactions |
| `links.dfy` | directories and link counts: create, link, unlink and their rollbacks |
| `dirs.dfy` | directories as files of sixteen-byte entries |
| `pagetable.dfy`, `vm.dfy` | frames, the three-level tree of section 4.4 of the RISC-V Privileged Architecture, version 20211203, and the operations on it |
| `aspace.dfy`, `exec.dfy`, `args.dfy` | address spaces over their life: creation, growth, lazy growth, faults, fork, exec and its arguments, teardown |
| `procs.dfy` | all processes together |
| `ucopy.dfy` | copying bytes between the kernel and user memory |
| `sleep.dfy` | `sleep` and `wakeup`, for any client |
| `pipe.dfy`, `locks.dfy`, `tree.dfy` | the clients: pipes, sleep locks, the log's admission, the disk driver's waits, exit and wait |
| `virtq.dfy` | the virtio queue of sections 2.6 and 5.2 of VIRTIO 1.1, driver and device |
| `umalloc.dfy` | the allocator of section 8.7 of The C Programming Language, 2nd edition |
| `shell.dfy`, `grammar.dfy` | the shell's parser and `nulterminate`; the grammar it parses |
| `common.dfy` | what several of these need |

## What is proved

**Storage.** Whatever block write of a commit the power fails after, and however often it fails again
during recovery, the home blocks end up all old or all new, and all new once the header is written
(`Crash.CrashAtomicity`); over any run of commits and crashes the disk is that of a store that does
each commit at once or not at all (`Crash.RunRefines`). The cache and the log produce exactly those
writes, in that order, and a reader always gets the last value written (`Caches.Cache.Bread`,
`Logs.Log.Commit`); a machine switched on after a crash has a working log, and its readers see that disk
(`Boots.PowerUp`). Two panics can be reached, and the contracts say exactly when. `log_write` looks for
room before it looks for the block, so it fails on a full log even when the block is there already. A
commit fails when every buffer is referenced; a full log has every buffer pinned, since there are as many
buffers as log blocks, so a transaction that fills the log never commits (`Logs.Log.FullReferenced`), and
`Boots.FillLog` is a run of three operations, each within its budget, that ends so; `Boots.RelogFails` meets
the first panic on the way.

**Files.** Each block in use is metadata or in exactly one slot of one inode; no file has an unmapped
block below its size; `writei` and `readi` are splice and slice of a byte sequence; a write stops short
only on a full disk or a failed copy. A copy that fails half way leaves bytes in the file that do not
count as written. Whether this harms the file can be told before the call, from the offset, the bytes, the
file, and which copy fails after how many bytes: `writei` and `filewrite` leave the file as the bytes that
count would, if and only if no byte of the failing chunk that is copied lies inside the file and differs from
what is there (`Files.HarmIff`, `Files.FileHarmIff`); `WorstCase.Tear` is a `filewrite` that reports nothing
written and has changed the file. Unless a copy fails half way everything changed is logged, and only home
blocks are. A chunk of `filewrite` logs at most ten blocks, and some log ten. `fsinfo` reports the data blocks that no
inode owns. Written out as words of blocks, bitmap, inodes and data can be read off the disk in one way
only (`Layout.OneState`), and after a crash during a write, an allocation or a deletion the disk stands for
the state before it or the state after it (`Layout.WriteDurably`), in every run of such transactions, alone
or committed together (`Layout.FilesSurvive`, `Layout.GroupCommit`). The bytes of a torn copy do not reach
the disk unless something else logs their block.

**Directories and link counts.** Looking up, adding and erasing entries through `readi` and `writei` does
to the bytes of a directory what the model of link counts says of its entries; an empty entry can always
be reused (`DirFiles.DirLink`, `DirFiles.Erase`). A file's count is the number of its names and of calls of
`link` in progress; a directory's is its one name plus the directories named in it; `..` is the directory
that names it. Every operation keeps this, failures included, except one: an entry made in a directory that
has already been unlinked. `create` and `link` keep the counts if and only if the directory still has a link
(`Links.NameFileIff`, `Links.MakeDirIff`); `Links.LostLink` is a run that breaks them, and `Links.Orphaned`
shows what is lost.

**Memory.** The tree in memory and a flat map from pages to entries always agree; each frame is free, in
hand, a page table of one space or a page of one space; operations that fail leave no trace but the
page-table pages they added, and fail only when memory is short. The kernel's panics are preconditions of
the lower operations, and no path through the system calls meets one. Whatever processes do, in whatever
order, no process disturbs another's memory, and when the last is gone every frame is free again
(`Lifecycle.Kernel`, `Lifecycle.Kernel.NoLeak`). After `exec` the program finds every byte of the file
that a segment asks for, unless a later segment covers it, zeros where a segment has memory and no file, and
nothing beyond (`Exec.ProgramFinds`, `Exec.SegmentFound`, `Exec.ZeroFound`); following the
array on its stack it finds exactly the arguments that were passed (`Arguments.ArgumentsArrive`,
`Arguments.OneReading`). A system call stores into memory of a process only where the process itself
may (`UserCopy.Copyout`). Faulting in a page promised by `sbrk` is invisible to the process; `copyinstr`,
unlike `copyin`, does not do it, and so fails on such a page.

**Concurrency.** For every client that wakes the channels on which it ends a wait and sleeps only while
it must, no wakeup is lost, with `wakeup` visiting one process at a time and others running in between
(`SleepWakeup.NoLostWakeup`). Sleep locks, the log, the disk driver and `kwait` are such clients. A pipe is
one unless a writer is killed after storing bytes in an empty pipe: `Pipes.WriteDiscipline` says exactly
that of a section, `Pipes.Pipe.Write` tells from its arguments which calls are of this kind, and
`Pipes.LosesWakeup` continues each of them to a run that leaves a reader asleep beside the bytes. Each descriptor of the
disk driver is free or in one chain of three, in whatever order the device works
(`Virtq.VirtioDisk.Conservation`).

**User space.** The free list of `malloc` stays one address-ordered cycle of blocks that never touch, and
every unit from the system is in one block. Of requests of 2^31 bytes and more the kernel sees another
number, and `morecore` takes memory for its own that the process was not given (`Umalloc.AskSystem`). The
shell's parser accepts exactly the lines whose tokens form a sentence of a grammar stated on tokens alone, and
returns the command the grammar gives it (`Grammar.ParserMeets`); no word and no sign of such a line is lost
(`Grammar.NothingLost`). Parsing a printed command gives it back, and the commands that lines can mean are
exactly those that can be printed (`Shell.JustExpressible`).

## Model

| member | source | states |
|---|---|---|
| `Crash.CommitMeaning` | xv6/kernel/log.c:179-204 | after any prefix of the writes of a commit, the disk stands for the old home blocks if the header is not yet written and for the new ones if it is |
| `Crash.RecoverMeaning` | xv6/kernel/log.c:66-124 | any prefix of the writes of recovery leaves what the disk stands for unchanged; all of them leave an empty log and the home blocks it stood for |
| `Crash.FailedRecoveriesMeaning` | xv6/kernel/log.c:118-124 | the same after any number of interrupted recoveries |
| `Crash.CrashAtomicity` | xv6/kernel/log.c:66-204 | for every transaction, crash point and number of further crashes in recovery: all old or all new, all new once the header is written |
| `Crash.StepRefines` | xv6/kernel/log.c:66-204 | one commit, crashed or not, does to the home blocks what an atomic store does |
| `Crash.RunRefines` | xv6/kernel/log.c:66-204 | so does any run of them |
| `Crash.CommitIsInvisible` | xv6/kernel/log.c:194-204 | committing the values readers already see changes no home block for them |
| `Caches.Cache.constructor` | xv6/kernel/bio.c:36-53 | all buffers on one ring with inverse links, none referenced, and the cache holds what the disk holds |
| `Caches.Cache.Search` | xv6/kernel/bio.c:63-75 | finds the buffer of a block if and only if there is one |
| `Caches.Cache.Victim` | xv6/kernel/bio.c:77-87 | of the unreferenced buffers, the one released longest ago; none if and only if all are referenced |
| `Caches.Cache.Recycle` | xv6/kernel/bio.c:79-86 | a buffer taken over for another block: still one buffer per block, and no pending change is lost |
| `Caches.Cache.Reference` | xv6/kernel/bio.c:58-89 | fails if and only if the block is not cached and every buffer is referenced |
| `Caches.Cache.Bread` | xv6/kernel/bio.c:92-103 | returns a locked buffer holding the last value written to the block, cached or not |
| `Caches.Cache.Modify` | xv6/kernel/log.c:206-214 | a change under the lock is at once what every later reader gets |
| `Caches.Cache.Bwrite` | xv6/kernel/bio.c:106-112 | one block write, after which the block no longer waits to be written |
| `Caches.Cache.MoveToFront` | xv6/kernel/bio.c:126-133 | the six pointer assignments keep the ring whole and make the buffer the most recent one |
| `Caches.Cache.Brelse` | xv6/kernel/bio.c:116-137 | a changed buffer that was logged or written may be let go without losing the change |
| `Caches.Cache.Bpin` | xv6/kernel/bio.c:139-144 | a pin counts as a reference of its own |
| `Caches.Cache.Bunpin` | xv6/kernel/bio.c:146-151 | unpinning is safe once the block is written or still held |
| `Caches.Cache.Clean` | xv6/kernel/bio.c:58-151 | with no change waiting, the disk holds what readers see |
| `Logs.Log.WriteLog` | xv6/kernel/log.c:178-192 | writes the logged blocks' current values to the log in order; fails only when every buffer is referenced |
| `Logs.Log.WriteHead` | xv6/kernel/log.c:100-115 | one block write: the header now lists the logged blocks |
| `Logs.Log.InstallTrans` | xv6/kernel/log.c:66-84 | copies the log to the home blocks in order, unpinning each exactly once, or none in recovery |
| `Logs.Log.Commit` | xv6/kernel/log.c:194-204 | makes exactly the block writes of `Crash.CommitWrites` and leaves nothing waiting; fails, before any write, if and only if something is logged and every buffer is referenced |
| `Logs.Log.ReadHead` | xv6/kernel/log.c:86-98 | reads back what `WriteHead` wrote |
| `Logs.Log.RecoverFromLog` | xv6/kernel/log.c:117-124 | makes exactly the block writes of `Crash.RecoverWrites` |
| `Logs.Log.BeginOp` | xv6/kernel/log.c:126-143 | admits an operation if and only if no commit runs and the log has room for every admitted operation's budget |
| `Logs.Log.LogWrite` | xv6/kernel/log.c:206-236 | logged blocks stay distinct and pinned; an appending write within its budget always finds room; it fails if and only if the log is full or no operation is outstanding, even for a block that is logged already |
| `Logs.Log.Bread` | xv6/kernel/bio.c:92-103 | a reader of a home block, in a transaction or not, leaves the log whole; it fails exactly when the block is not cached and every buffer is referenced |
| `Logs.Log.Modify` | xv6/kernel/log.c:206-214 | so does a change under the buffer's lock, which readers see at once |
| `Logs.Log.Brelse` | xv6/kernel/bio.c:116-137 | and letting the buffer go, once what was changed is logged |
| `Logs.Log.Leave` | xv6/kernel/log.c:147-163 | the first section of `end_op`, as the admission protocol has it; "log.committing" cannot happen |
| `Logs.Log.CommitNow` | xv6/kernel/log.c:165-169 | the commit while no operation can begin: it fails, before any write, if and only if something is logged and every buffer is referenced |
| `Logs.Log.Done` | xv6/kernel/log.c:170-174 | the last section of `end_op`, which wakes those who wait to begin |
| `Logs.Log.FullReferenced` | xv6/kernel/log.c:178-192 | a full log has every buffer pinned, so the first read of its commit panics |
| `Logs.Log.EndOp` | xv6/kernel/log.c:145-176 | the two sections of `end_op` and the commit between them: afterwards the disk's home blocks are those readers saw, and the log is empty; new operations are let in again and those waiting are woken; it fails if every buffer is referenced, so always on a full log |
| `Logs.Log.CommitIsDurable` | xv6/kernel/log.c:145-204 | at the last `end_op` the logged blocks are exactly what the disk lacks |
| `Logs.Log.AllOrNothing` | xv6/kernel/log.c:145-204 | a crash during that commit, and any number in recovery, leaves what readers saw before it or what was on disk |
| `Boots.Boot` | xv6/kernel/log.c:53-63 | on any disk a run of the kernel may leave: recovery gives a log that is ready, and readers see what the disk stood for |
| `Boots.Reboot` | xv6/kernel/log.c:53-204 | after a crash at any write of a commit and any number in recoveries, the machine comes up with all of the transaction or none |
| `Boots.PowerUp` | xv6/kernel/log.c:53-204 | the same for the log of a running kernel: readers see what they saw before the commit if its header was written, and what was on disk if not |
| `Boots.FillLog` | xv6/kernel/log.c:126-236 | three operations of ten blocks each, begun together while the log is idle and no buffer is referenced: two of them end, the last `end_op` panics, whatever the blocks, and nothing has been written to the disk |
| `Boots.RelogFails` | xv6/kernel/log.c:215-229 | on the way there, logging any of the blocks a second time panics, though it would add nothing |
| `LogLocks.SumBound` | xv6/kernel/log.c:126-143 | the budgets of admitted operations are within what admission counted |
| `LogLocks.ReservedStep` | xv6/kernel/log.c:126-236 | each section keeps: blocks logged plus budgets unspent fit the log, a commit runs alone, an idle log is empty |
| `LogLocks.LogRoom` | xv6/kernel/log.c:126-236 | in every state of every run an operation with budget left finds room in the log |
| `LogLocks.Discipline` | xv6/kernel/log.c:126-176 | `begin_op` and `end_op` wake whom they must |
| `LogLocks.Progress` | xv6/kernel/log.c:126-176 | while the lock is free, a sleeper in `begin_op` waits for a commit that runs or an operation that is outstanding |
| `DiskLocks.Discipline` | xv6/kernel/virtio_disk.c:215-327 | every section of the driver wakes whom it must: those without descriptors when some are freed, a buffer's process when its request is complete |
| `DiskLocks.DiskSleepers` | xv6/kernel/virtio_disk.c:215-327 | while `vdisk_lock` is free, a process asleep for descriptors finds fewer than three, and one asleep on a buffer has a request that is not complete |
| `Inodes.WordSet` | xv6/kernel/fs.c:419-437 | storing a 32-bit address in a block of bytes reads back there and changes no other word |
| `Inodes.TakeBlock` | xv6/kernel/fs.c:66-89 | a block marked and cleared keeps bitmap, ownership and block maps in agreement |
| `Inodes.LinkSlot` | xv6/kernel/fs.c:411-427 | storing an address in the inode adds that one address to that one file |
| `Inodes.LinkEntry` | xv6/kernel/fs.c:428-437 | so does storing one in the indirect block |
| `Inodes.Unindirect` | xv6/kernel/fs.c:459-471 | dropping the indirect block takes exactly its entries out of the file |
| `Inodes.KeptFile` | xv6/kernel/fs.c:405-444 | allocation changes the contents of no other file |
| `Inodes.WriteDone` | xv6/kernel/fs.c:528-562 | a finished write has left no unmapped block below the new size, and the file is the old one with the bytes spliced in |
| `Inodes.ReadChunk` | xv6/kernel/fs.c:505-517 | the bytes of one block are the slice of the file they stand for |
| `Files.FileSystem.Balloc` | xv6/kernel/fs.c:62-89 | the first free block, zeroed, with its bitmap block logged; 0 if and only if the bitmap is full |
| `Files.FileSystem.Bfree` | xv6/kernel/fs.c:91-106 | frees a block in use; "freeing free block" cannot happen |
| `Files.FileSystem.Bmap` | xv6/kernel/fs.c:399-444 | the block of a file, the one there or a new zeroed one; other files and all other blocks stay; 0 only on a full disk; everything changed is logged |
| `Files.FileSystem.Iupdate` | xv6/kernel/fs.c:222-242 | the inode on disk becomes the one in memory, and its block is logged |
| `Files.FileSystem.Writei` | xv6/kernel/fs.c:521-562 | splices exactly the bytes copied, across blocks and into the indirect part; no other file changes; fails exactly on a bad offset or length; never passes the chunk whose copy fails and leaves that chunk's first bytes, as many as were copied; otherwise stops short only on a full disk, at a block that was not there; the file is as the bytes that count would leave it exactly when `Files.Harms` does not hold beforehand; putting back one block undoes a torn copy; at most ten blocks are logged for three blocks' worth of bytes |
| `Files.FileSystem.Readi` | xv6/kernel/fs.c:490-519 | returns the slice of the file, cut at its end; -1 exactly when the chunk whose copy fails is among those read; allocates nothing |
| `Files.FileSystem.Itrunc` | xv6/kernel/fs.c:446-476 | frees exactly the blocks the inode owned, indirect ones included; every bit changed is in a logged block |
| `Files.FileSystem.Ialloc` | xv6/kernel/fs.c:195-220 | claims a free inode, empty, or reports that there is none |
| `Files.FileSystem.IputLast` | xv6/kernel/fs.c:337-363 | the last put of an unlinked inode frees it and its blocks and nothing else |
| `Files.FileSystem.Ireclaim` | xv6/kernel/fs.c:373-393 | afterwards no allocated inode is without links, and no block belongs to one; linked inodes are untouched |
| `Files.FileSystem.Fsinfo` | xv6/kernel/sysproc.c:120-177 | the counts of inodes by kind and of clear bits |
| `Files.CountIs` | xv6/kernel/sysproc.c:120-177 | a count of inodes by kind is the size of the set of inodes of that kind |
| `Files.HarmIff` | xv6/kernel/fs.c:545-548 | whether bytes copied before a copy failed harm the file can be told from the offset, the bytes, the file, which copy fails and after how many bytes; a full disk cannot change it |
| `Files.LostAre` | xv6/kernel/fs.c:536-552 | the bytes in the file that do not count are, within the old file, just those the failing chunk copies |
| `Files.FileHarmIff` | xv6/kernel/file.c:134-179 | the same for all transactions of a `filewrite`: the first one with a failing chunk decides |
| `Files.SpanBound` | xv6/kernel/file.c:143-151 | three blocks' worth of bytes touch at most four blocks, three if they begin at a boundary |
| `Files.FileSystem.WriteTransaction` | xv6/kernel/file.c:152-158 | one chunk stays within the blocks a transaction may log, and the file is the old one with the bytes copied spliced in; where it stops and how many bytes a failing copy leaves are tied to the chunk that fails, as in `writei` |
| `Files.FileSystem.Filewrite` | xv6/kernel/file.c:134-179 | the file is the old one with a prefix of the bytes spliced in, all of them if the call succeeds, and then no copy failed; the bytes in it that do not count are those that the first failing transaction lost; it is as the bytes that count would leave it exactly when `Files.FileHarms` does not hold beforehand; without failed copies it fails only on a bad offset, an oversized file or a full disk; each transaction stays within the budget, and unless a copy failed half way every block changed was logged in one of them |
| `Layout.InodeSame` | xv6/kernel/fs.h:32-45 | the words of an inode block tell the inodes in it |
| `Layout.BitSame` | xv6/kernel/fs.h:47-51 | the words of a bitmap block tell its bits |
| `Layout.OneState` | xv6/kernel/fs.h:14-51 | a disk stands for one state of bitmap, inodes and data |
| `Layout.InodeReads` | xv6/kernel/fs.h:31-45 | type, link count, size and addresses of an inode are read at its place in its inode block |
| `Layout.BitReads` | xv6/kernel/fs.h:47-51 | whether a block is in use is a bit of a byte of its bitmap block |
| `Layout.ByteReads` | xv6/kernel/fs.c:505-511 | the bytes of a data block lie in it in order |
| `Layout.OnlyLogged` | xv6/kernel/log.c:206-236 | if whatever differs between two states lies in logged blocks, every other block of the disk is the same |
| `Layout.CrashLeavesOne` | xv6/kernel/log.c:66-204 | power fails at any write of a transaction's commit and at any of the recoveries: the disk then stands for the state after the transaction if the header was written, and for the one before if not |
| `Layout.FilesSurvive` | xv6/kernel/log.c:66-204 | over every run of transactions and power failures the disk stands for the state made by the transactions whose headers were written |
| `Layout.GroupCommit` | xv6/kernel/log.c:10-24 | transactions that commit together change nothing outside their logged blocks together |
| `Layout.MayRun` | xv6/kernel/log.c:66-204 | every operation of the inode layer whose blocks fit the log is a transaction that such a run may hold |
| `Layout.LoggedInside` | xv6/kernel/fs.h:14-51 | no operation logs a block of the log, the superblock, or one out of range |
| `Layout.WriteDurably` | xv6/kernel/file.c:152-158 | a write transaction is all or nothing in this sense, with at most ten blocks; if a copy fails half way, what becomes durable is the file with just the bytes that count, unless the torn block was logged by something else |
| `Layout.DeleteDurably` | xv6/kernel/fs.c:337-363 | so is the deletion of a file: all its blocks and the inode, or nothing; it logs one inode block and bitmap blocks, which fit the log on a disk of twenty-nine bitmap blocks or fewer |
| `Layout.AllocDurably` | xv6/kernel/fs.c:199-220 | so is the allocation of an inode |
| `Layout.FreeOnDisk` | xv6/kernel/sysproc.c:160-170 | the clear bits that `fsinfo` counts are the data blocks, as many as the superblock says, less those some inode owns |
| `WorstCase.LogsTen` | xv6/kernel/file.c:143-151 | for every disk whose four free blocks lie under four bitmap blocks, a three-block write from inside the last direct block logs ten blocks |
| `WorstCase.WorstDisk` | xv6/kernel/file.c:143-151 | such a disk exists |
| `WorstCase.Tear` | xv6/kernel/file.c:134-179 | for every file whose first byte differs: a call of `filewrite` whose source ends after one byte returns -1, leaves the offset and changes the file |
| `WorstCase.TornHarm` | xv6/kernel/file.c:134-179 | such a call on a disk with one file |
| `Links.NameFile` | xv6/kernel/fs.c:600-629 | a file with a count ahead of its names gets a name, and all counts hold |
| `Links.MakeDir` | xv6/kernel/sysfile.c:276-289 | a new directory is named in its parent, which counts it, and all counts hold |
| `Links.UnlinkFile` | xv6/kernel/sysfile.c:222-232 | a file loses a name and a link, and all counts hold |
| `Links.UnlinkDir` | xv6/kernel/sysfile.c:222-232 | so does an empty directory, and its parent stops counting it |
| `Links.Counted` | xv6/kernel/sysfile.c:215-216 | whatever a directory names has a link: "unlink: nlink < 1" cannot happen |
| `Links.Unlinked` | xv6/kernel/fs.c:342-353 | exactly the inodes without a link have no name and no call of `link` in progress; such a directory is empty |
| `Links.Reaped` | xv6/kernel/fs.c:342-353 | freeing one disturbs no count |
| `Links.NameFileIff` | xv6/kernel/sysfile.c:282-283 | naming a file keeps the counts if and only if the directory has a link |
| `Links.MakeDirIff` | xv6/kernel/sysfile.c:276-289 | so does making a directory |
| `Links.Orphaned` | xv6/kernel/sysfile.c:254-283 | an entry made in an unlinked directory leaves the file, once the directory is freed, with a link that no entry names |
| `Links.LostLink` | xv6/kernel/sysfile.c:188-302 | a run from an empty file system, create a directory, unlink it, create a file in it, after which the counts are wrong |
| `Links.OneMeaning` | xv6/kernel/fs.c:566-598 | under 14-byte comparison a name stands for at most one inode |
| `Links.PutMeans` | xv6/kernel/fs.c:600-629 | a new entry gives its name a meaning and changes no other |
| `Links.ClearMeans` | xv6/kernel/sysfile.c:222-224 | clearing an entry takes its name's meaning away and changes no other |
| `Links.Directories.DirLookup` | xv6/kernel/fs.c:572-598 | finds the entry of a name if and only if there is one |
| `Links.Directories.DirLink` | xv6/kernel/fs.c:600-629 | adds the entry in the first empty slot; fails exactly when the name is there, or there is no empty slot and no room to grow, which is a parameter here and derived in `DirFiles.DirLink`; the name then stands for the inode and all other names for what they did |
| `Links.Directories.IsDirEmpty` | xv6/kernel/sysfile.c:172-186 | true exactly when nothing but `.` and `..` is named |
| `Links.Directories.LinkStart` | xv6/kernel/sysfile.c:138-147 | the count goes ahead of the names by one call in progress; directories are refused |
| `Links.Directories.LinkFinish` | xv6/kernel/sysfile.c:149-170 | the name arrives, or the count goes back: the counts hold unless the directory was already unlinked |
| `Links.Directories.LinkUndo` | xv6/kernel/sysfile.c:163-169 | the rollback takes back just the count of this call |
| `Links.Directories.CreateFile` | xv6/kernel/sysfile.c:265-301 | a new file with one name and one link, or nothing at all |
| `Links.Directories.CreateDir` | xv6/kernel/sysfile.c:265-301 | a new directory with `.` and `..`, named and counted by its parent, or nothing at all, whichever of the three entries fails |
| `Links.Directories.Create` | xv6/kernel/sysfile.c:245-302 | afterwards the name stands for the inode returned, and all other names for what they did; an existing one is returned exactly when a file was asked for and it is a file or a device; the counts break only in an unlinked directory |
| `Links.Directories.Unlink` | xv6/kernel/sysfile.c:188-243 | succeeds exactly when the name is there, is not `.` or `..`, and is not that of a directory that names something; then the name means nothing, every other name what it did, its inode has one link less, the directory too if that was a directory, and nothing else has changed; the counts hold |
| `Links.Directories.Reap` | xv6/kernel/fs.c:337-363 | freeing an inode without links keeps the counts |
| `DirFiles.Namecmp` | xv6/kernel/string.c:60-68 | comparing at most fourteen bytes is comparing the names cut to fourteen |
| `DirFiles.NameStored` | xv6/kernel/string.c:70-81 | a name stored in an entry reads back cut to fourteen bytes |
| `DirFiles.EntryWritten` | xv6/kernel/fs.c:602-629 | writing sixteen bytes at an entry's place changes that entry alone, or adds one |
| `DirFiles.ReadEntry` | xv6/kernel/fs.c:581-583 | the read of an entry is never short: "dirlookup read" cannot happen |
| `DirFiles.DirLookup` | xv6/kernel/fs.c:574-598 | finds the first entry of a name if and only if there is one, changing nothing |
| `DirFiles.DirLink` | xv6/kernel/fs.c:602-629 | adds the entry in the first empty place, cut to fourteen bytes and sixteen bits, and changes no other file; fails when the name is there, and otherwise only when there is no empty place and the file is at its largest or the disk is full |
| `DirFiles.Erase` | xv6/kernel/sysfile.c:222-224 | clears one entry; "unlink: writei" cannot happen |
| `DirFiles.IsDirEmpty` | xv6/kernel/sysfile.c:173-186 | true exactly when nothing but the first two entries is in use |
| `PageTables.Decode` | xv6/kernel/riscv.h:372-380 | the three indices of a page lead from the root to its own slot |
| `PageTables.DistinctSlots` | xv6/kernel/vm.c:97-115 | distinct pages reach distinct slots |
| `PageTables.AddNode` | xv6/kernel/vm.c:104-111 | hanging an empty page under an empty entry leaves the flat map as it is |
| `PageTables.SetLeaf` | xv6/kernel/vm.c:160-168 | storing a leaf entry changes the flat map at that page alone |
| `PageTables.DropNode` | xv6/kernel/vm.c:266-276 | removing an empty page-table page leaves the flat map as it is |
| `Vm.Machine.constructor` | xv6/kernel/kalloc.c:26-40 | every frame of the range is free, each once |
| `Vm.Machine.Kalloc` | xv6/kernel/kalloc.c:66-82 | hands out a free frame, none exactly when none is left |
| `Vm.Machine.Kfree` | xv6/kernel/kalloc.c:42-63 | takes back a frame that nothing refers to |
| `Vm.Machine.Walk` | xv6/kernel/vm.c:86-115 | the page-table page of a page; allocating, it only adds empty pages, and fails only when at most one frame was free |
| `Vm.Machine.Walkaddr` | xv6/kernel/vm.c:117-138 | the frame of a page exactly when it is mapped for the user |
| `Vm.Machine.Mappages` | xv6/kernel/vm.c:140-174 | the flat map gains exactly the range, or a prefix of it if memory runs out |
| `Vm.Machine.Uvmcreate` | xv6/kernel/vm.c:176-187 | an empty space beside the others |
| `Vm.Machine.Uvmunmap` | xv6/kernel/vm.c:189-212 | the flat map loses exactly the range; the frames go back to the pool if asked for |
| `Vm.Machine.Uvmalloc` | xv6/kernel/vm.c:214-240 | zero pages on exactly the new range, or the old map; fails only with fewer than three free frames per page; never meets a mapped page |
| `Vm.Machine.Uvmdealloc` | xv6/kernel/vm.c:242-258 | exactly the pages above the new size go |
| `Vm.Machine.Uvmcopy` | xv6/kernel/vm.c:290-324 | the same pages with equal flags and contents in fresh frames, or the old map; fails only for lack of frames |
| `Vm.Machine.Freewalk` | xv6/kernel/vm.c:260-278 | with nothing mapped, every page-table page below goes back to the pool; "freewalk: leaf" cannot happen |
| `Vm.Machine.Uvmfree` | xv6/kernel/vm.c:280-288 | every frame of the space is free again and no other frame has changed |
| `Vm.Machine.Uvmclear` | xv6/kernel/vm.c:326-337 | one page is taken from the user, nothing else changes |
| `Vm.Pigeonhole` | xv6/kernel/memlayout.h:39-59 | a space has no more pages than there are frames, so growth runs out of memory before it meets the trap frame |
| `AddressSpaces.ProcPagetable` | xv6/kernel/proc.c:174-206 | a space with exactly the trampoline and the trap frame, or no trace |
| `AddressSpaces.ProcFreepagetable` | xv6/kernel/proc.c:208-216 | all its frames are free again but the trap frame |
| `AddressSpaces.Growproc` | xv6/kernel/proc.c:234-255 | everything mapped stays below the size; growth maps zero pages that the user may read and write, exactly up to the new size, or changes nothing; a shrink below zero changes nothing; other spaces and the pages kept are as they were |
| `AddressSpaces.SbrkLazy` | xv6/kernel/sysproc.c:57-70 | only the size grows, and stays below the trap frame |
| `AddressSpaces.Vmfault` | xv6/kernel/vm.c:448-473 | a zero page at an address below the size that had none; refused exactly above the size, on a mapped page, or for lack of frames |
| `AddressSpaces.ForkSpace` | xv6/kernel/proc.c:257-290 | the child has the parent's pages, flags and contents, and its own trap frame, or there is no trace of it |
| `AddressSpaces.OpenedGone` | xv6/kernel/proc.c:208-216 | a space built and torn down leaves no trace |
| `Exec.Loadseg` | xv6/kernel/exec.c:150-173 | each page gets exactly the segment's bytes that belong in it and keeps the rest; "address should exist" cannot happen; fails exactly when the file is too short |
| `Exec.AddSegment` | xv6/kernel/exec.c:64-82 | one more segment laid over the image so far; refused only if unsound, empty at address 0 or memory is short |
| `Exec.LaidNext` | xv6/kernel/exec.c:64-82 | each byte is what the last segment that fills it says, with the permissions of the first that reaches its page |
| `Exec.AddStack` | xv6/kernel/exec.c:90-101 | a guard page the user cannot touch and a stack page above it |
| `Exec.CopyArgs` | xv6/kernel/exec.c:103-129 | the stack page holds the strings and the array of their addresses, or they do not fit |
| `Arguments.WordValue` | xv6/kernel/exec.c:121-129 | a 64-bit address stored low byte first reads back |
| `Arguments.ArgumentsArrive` | xv6/kernel/exec.c:103-129 | following the array at the stack pointer finds each argument, and the array ends with 0 |
| `Arguments.OneReading` | xv6/kernel/exec.c:103-129 | a stack page can be read in one way only |
| `Arguments.WrittenNext` | xv6/kernel/exec.c:105-116 | one more string on a 16-byte boundary below the others, or the arguments do not fit |
| `Arguments.StackedFinds` | xv6/kernel/exec.c:103-134 | the stack pointer is aligned and in the stack page, and what is there is what `main` is to find |
| `Exec.BuildImage` | xv6/kernel/exec.c:58-133 | the whole image as the headers say, or an image that can be torn down |
| `Exec.ExecSpace` | xv6/kernel/exec.c:26-148 | the new image replaces the old space, the memory of all other spaces unchanged; or everything is as before, and then the program was unsound, its arguments did not fit or memory was short |
| `Exec.ChunkFills` | xv6/kernel/exec.c:154-173 | a partly read page has the segment's bytes as far as they go and the earlier ones after that |
| `Exec.ProgramFinds` | xv6/kernel/exec.c:26-148 | at every address the program finds what the headers and the stack page say, nothing in the guard page and nothing above |
| `Exec.SegmentFound` | xv6/kernel/exec.c:58-81 | in terms of the header: the program finds each of the `filesz` bytes of the file at its address, if no later segment covers that |
| `Exec.ZeroFound` | xv6/kernel/exec.c:68-72 | in a segment's memory, where no segment's part of the file lies, it finds zeros |
| `Exec.Permissions` | xv6/kernel/exec.c:64-75 | a page that a segment is the first to reach has the write and execute permissions of that segment |
| `Lifecycle.Kernel.constructor` | xv6/kernel/kalloc.c:26-40 | no process, and the frames of a range |
| `Lifecycle.Kernel.NoLeak` | xv6/kernel/proc.c:155-172 | whatever happened in between, when no process is left every frame is free |
| `Lifecycle.Kernel.Start` | xv6/kernel/proc.c:109-150 | a process with an empty space, or no trace; all others undisturbed |
| `Lifecycle.Kernel.Fork` | xv6/kernel/proc.c:259-306 | the child has the parent's memory in frames of its own, or there is no trace of it; all processes undisturbed |
| `Lifecycle.Kernel.Sbrk` | xv6/kernel/proc.c:236-255 | one process grows, by zero pages that it may read and write, or shrinks, to exactly the size asked for, or nothing changes and memory was short; all others find their memory as it was |
| `Lifecycle.Kernel.SbrkLazily` | xv6/kernel/sysproc.c:46-72 | only the size changes, exactly when it stays below the trap frame |
| `Lifecycle.Kernel.Fault` | xv6/kernel/vm.c:452-473 | a fault of one process maps one zero page, readable and writable, at an address below the size that had none, or changes nothing and says why; all others are undisturbed |
| `Lifecycle.Kernel.CopyTo` | xv6/kernel/vm.c:342-375 | a copy to one process is seen there, at the address, and by no other process; it stores only where the process may, and with enough frames succeeds exactly when the process may store everywhere |
| `Lifecycle.Kernel.Exit` | xv6/kernel/proc.c:155-172 | trap frame and space go back to the pool, all others undisturbed |
| `Lifecycle.Kernel.ExecImage` | xv6/kernel/exec.c:26-148 | a new image for one process, or it is undisturbed too; all others undisturbed |
| `Lifecycle.Kernel.AfterExec` | xv6/kernel/exec.c:26-148 | what that program finds, at every address and as its arguments |
| `Lifecycle.Kernel.SegmentAfterExec` | xv6/kernel/exec.c:58-81 | and, in terms of the headers, every byte of each segment's part of the file and zeros after it |
| `UserCopy.FaultInvisible` | xv6/kernel/vm.c:448-473 | handing out a promised page changes nothing the user could find |
| `UserCopy.Copyout` | xv6/kernel/vm.c:339-375 | the user finds the bytes at the address and everything else as before; no byte is stored in a page that is not the user's or read-only; with enough frames it succeeds exactly when there is no such page; it stops only there or for lack of frames |
| `UserCopy.Copyin` | xv6/kernel/vm.c:377-403 | returns what the user would find there, and changes nothing the user could find |
| `UserCopy.ReadBack` | xv6/kernel/vm.c:339-403 | what was copied out is what is copied in |
| `UserCopy.Copyinstr` | xv6/kernel/vm.c:405-446 | the string up to its zero, exactly when the zero comes in time and every page up to it is already mapped |
| `SleepWakeup.InvStep` | xv6/kernel/proc.c:540-587 | every step of sleep, wakeup, kill and the client keeps: a sleeper's condition holds or its wakeup is still to come |
| `SleepWakeup.NoLostWakeup` | xv6/kernel/proc.c:540-587 | in every run of a disciplined client, while the lock is free, a sleeper's condition holds |
| `SleepWakeup.Kept` | xv6/kernel/proc.c:540-587 | what every section keeps holds in every state of every run |
| `SleepLocks.Sleepers` | xv6/kernel/sleeplock.c:21-41 | while the spin lock is free, a sleeper implies that the sleep lock is held |
| `SleepLocks.SleepLock.Acquire` | xv6/kernel/sleeplock.c:21-31 | takes the lock exactly when it is free, otherwise sleeps, as the client's section says |
| `SleepLocks.SleepLock.Release` | xv6/kernel/sleeplock.c:33-41 | frees the lock and wakes the sleepers |
| `SleepLocks.SleepLock.Holding` | xv6/kernel/sleeplock.c:43-52 | true exactly for the process that took the lock |
| `Pipes.WriteDiscipline` | xv6/kernel/pipe.c:76-103 | a section of `pipewrite` wakes whom it must if and only if it does not fail after storing bytes in an empty pipe; which calls do is told beforehand by `Pipes.Pipe.Write` |
| `Pipes.PipeSleepers` | xv6/kernel/pipe.c:58-134 | without that exit: a sleeping reader implies an empty pipe open for writing, a sleeping writer a full one open for reading |
| `Pipes.KilledWriter` | xv6/kernel/pipe.c:84-87 | every section of that kind can follow on a reader's, and leaves the reader asleep beside the bytes |
| `Pipes.LosesWakeup` | xv6/kernel/pipe.c:76-103 | every call of `pipewrite` on a pipe that meets the condition performs such a section, and ends such a run |
| `Pipes.OneByteBehind` | xv6/kernel/pipe.c:76-103 | one on a new pipe, killed after the first of two bytes |
| `Pipes.FullCount` | xv6/kernel/pipe.c:88-95 | the test for a full pipe is right for wrapped counters |
| `Pipes.SlotCount` | xv6/kernel/pipe.c:93-95 | a wrapped counter names the same slot |
| `Pipes.Pipe.Write` | xv6/kernel/pipe.c:76-103 | appends a run of the bytes given to what was accepted, ending at the kill, the failed copy or the full pipe; fails exactly when bytes are left and the reader is gone or the writer killed; leaves readers asleep exactly when the pipe is empty and open and the kill comes after some bytes, before the pipe is full and before a copy fails |
| `Pipes.Pipe.Read` | xv6/kernel/pipe.c:105-134 | delivers the next bytes accepted, in order, as many as asked for, as there are, or up to the byte whose copy fails, which it does not consume; waits exactly when the pipe is empty and open for writing |
| `Pipes.Pipe.Close` | xv6/kernel/pipe.c:58-74 | closes the end it is told to and no other, and wakes those who wait for that end |
| `Pipes.EndOfFile` | xv6/kernel/pipe.c:58-134 | after the write end is closed, a read of a pipe with nothing left returns 0 and does not sleep |
| `Pipes.BrokenPipe` | xv6/kernel/pipe.c:58-102 | after the read end is closed, a write fails and stores nothing |
| `ProcessTree.Discipline` | xv6/kernel/proc.c:308-415 | exit wakes every process whose wait it ends |
| `ProcessTree.Waiters` | xv6/kernel/proc.c:368-415 | while `wait_lock` is free, a process asleep in `kwait` has a child and no zombie child |
| `ProcessTree.TreeRun` | xv6/kernel/proc.c:257-415 | in every state of every run each live or zombie process but init has a parent that is alive, and each exit has been waited for at most once |
| `ProcessTree.ProcTable.Exit` | xv6/kernel/proc.c:323-366 | children go to init, which is woken if there are any, and so is the parent |
| `ProcessTree.ProcTable.Wait` | xv6/kernel/proc.c:368-415 | reaps the first zombie child; sleeps exactly when there are children, none a zombie, and it is not killed |
| `Virtq.VirtioDisk.constructor` | xv6/kernel/virtio_disk.c:60-153 | all descriptors free, both rings empty, any buffers and sectors |
| `Virtq.VirtioDisk.Conservation` | xv6/kernel/virtio_disk.c:156-213 | between calls each descriptor is free or in one of the chains of three |
| `Virtq.VirtioDisk.Alloc3` | xv6/kernel/virtio_disk.c:199-213 | three descriptors or none, and none only if fewer than three were free |
| `Virtq.VirtioDisk.FreeDesc` | xv6/kernel/virtio_disk.c:168-182 | its panics cannot happen |
| `Virtq.VirtioDisk.Submit` | xv6/kernel/virtio_disk.c:215-277 | three free descriptors and no others become a chain that describes the request, which is posted, and no unread ring entry is overwritten; none only if fewer than three were free; the process then sleeps on what it must |
| `Virtq.VirtioDisk.DeviceFetch` | xv6/kernel/virtio_disk.c:247-273 | the device sees the request that was posted, in the order posted, through the wrap of the 16-bit index |
| `Virtq.VirtioDisk.DeviceComplete` | xv6/kernel/virtio_disk.c:294-327 | in whatever order the device completes what it has fetched, the transfer is that of the buffer and sector that asked for it, within what the descriptors permit the device |
| `Virtq.VirtioDisk.SeeOne` | xv6/kernel/virtio_disk.c:310-325 | each completion clears the flag of exactly the buffer that issued it |
| `Virtq.VirtioDisk.Interrupt` | xv6/kernel/virtio_disk.c:294-327 | afterwards every completion is read, just their buffers' flags are clear, and their processes are woken |
| `Virtq.VirtioDisk.Finish` | xv6/kernel/virtio_disk.c:280-291 | exactly the chain's three descriptors are free again |
| `Virtq.VirtioDisk.Resume` | xv6/kernel/virtio_disk.c:275-291 | a waiting process gives its descriptors back, waking those who want some, exactly when its request is complete |
| `Virtq.VirtioDisk.Alone` | xv6/kernel/virtio_disk.c:215-327 | a request on an idle disk, from submission to the end: the block moves and the disk is idle again |
| `Virtq.RingPush` | xv6/kernel/virtio_disk.c:261-270 | a ring with room keeps its unread entries when one is added, index wrap included |
| `Virtq.RingPop` | xv6/kernel/virtio_disk.c:310-325 | the indices differ exactly when something is unread, and the entry read is the oldest |
| `Umalloc.Partition` | xv6/user/umalloc.c:24-90 | the units from the system are exactly those of the blocks, each in one block, free or in use |
| `Umalloc.Coalesced` | xv6/user/umalloc.c:31-41 | no free block ends where another begins |
| `Umalloc.OneCycle` | xv6/user/umalloc.c:24-90 | the links go through all nodes in address order and back to the first |
| `Umalloc.FreeOk` | xv6/user/umalloc.c:24-44 | whatever the freed block touches, the heap is whole again |
| `Umalloc.AskSystem` | xv6/user/umalloc.c:46-56 | an answer of `sbrk` comes with the memory asked for if and only if its size fits an int; from 2^31 to 2^32 bytes an address always comes back, with no new memory and perhaps less than before |
| `Umalloc.Heap.FindPlace` | xv6/user/umalloc.c:29-32 | the search of `free` ends, at the last node below the block |
| `Umalloc.Heap.Free` | xv6/user/umalloc.c:24-44 | the block is free, in a block at least as large; nothing else is |
| `Umalloc.Heap.Morecore` | xv6/user/umalloc.c:46-61 | a region that the system gives joins the free list; without one nothing changes |
| `Umalloc.Heap.Malloc` | xv6/user/umalloc.c:63-90 | first fit from where the last search ended; asks the system at most once, and only when nothing fits; the block is new, of the units asked for, and all others stay |
| `Shell.RoundTrip` | xv6/user/sh.c:328-452 | parsing the printed form of any command with at most nine arguments per exec gives the same command |
| `Shell.ParsePrintParse` | xv6/user/sh.c:328-452 | printing what any accepted line parses to, and parsing that, gives it again |
| `Shell.JustExpressible` | xv6/user/sh.c:328-452 | the commands that lines can mean are exactly those of proper words with at most nine arguments per exec |
| `Grammar.ParserMeets` | xv6/user/sh.c:333-452 | the parser accepts a line exactly when its tokens form a sentence of the grammar, and returns the command that the grammar gives it |
| `Grammar.NothingLost` | xv6/user/sh.c:333-452 | the words of an accepted line are the arguments and the file names of the command, each once and in order, a file name being a word after `<`, `>` or `>>`; one node for each pipe, semicolon and ampersand sign |
| `Grammar.PlainLine` | xv6/user/sh.c:380-452 | a line of words and redirections is accepted exactly when each redirection has its word and there are at most nine others; it means the program with those arguments in order, the first redirection innermost |
| `Grammar.LexSpells` | xv6/user/sh.c:271-314 | the tokens of a line spell it out, with only white space between them; words and `>>` are as long as they can be |
| `Grammar.WrapInside` | xv6/user/sh.c:380-403 | redirections are put around a command, the first innermost |
| `Grammar.OneMeaning` | xv6/user/sh.c:333-452 | the grammar gives a line at most one command |
| `Shell.PrintBack` | xv6/user/sh.c:350-452 | so it does in the middle of a line, before a closing parenthesis or the end |
| `Shell.LineTokens` | xv6/user/sh.c:350-452 | every word of a parsed command is a maximal run of word characters of the line |
| `Shell.Terminated` | xv6/user/sh.c:454-499 | after `nulterminate` every argument and file name reads as exactly its token |
| `Shell.Nulterminate` | xv6/user/sh.c:454-499 | the buffer changes at the ends of the words alone |
| `Shell.Scan` | xv6/user/sh.c:271-314 | the loop finds the token the parser's specification does |

## Left out

- Assembly, traps, privileged registers, start-up, the scheduler's context switch: a switch is one step.
- Spin locks and memory ordering: taken as mutual exclusion.
- The console, the UART, the interrupt controller, printing, and the initialisation of the virtio device.
- mkfs: an initial image that satisfies the invariants is assumed, laid out as it lays one out.
- Path lookup (`namex`, `skipelem`): operations on directories take the directory found.
- The tables of in-memory inodes and open files: their reference counts are simple counters; "the last put" is a call the model allows whenever the inode has no link.
- Small user programs, system-call argument decoding, kernel page table set-up.
- Several devices: there is one disk.
- Caches.Cache.Bread: waiting for a locked buffer is modelled at its end, when the buffer is unlocked.
- Logs.Log.Commit: one step, taken when nobody holds a logged block; a reader outside a transaction may hold one, and the kernel then waits for it.
- Logs.Log.EndOp: likewise, and so its parts `Logs.Log.CommitNow`, `Logs.Log.WriteLog` and `Logs.Log.InstallTrans`.
- Logs.Log.WriteLog: see Logs.Log.Commit.
- Logs.Log.InstallTrans: see Logs.Log.Commit.
- Logs.Log.Bread: see Caches.Cache.Bread.
- Caches.Cache.MoveToFront: pointers are indices into arrays, the list head one past the buffers.
- Logs.Log.LogWrite: the budget of each operation is ghost state; the kernel trusts its callers to keep to it.
- Files.FileSystem.Balloc: the bitmap is a sequence of bits and the inodes records; `layout.dfy` says how they lie in blocks, but for device numbers.
- Layout.WriteDurably: a torn block that a later transaction logs reaches the disk with it; and while it stays in the cache readers see it.
- Files.FileSystem.Itrunc: the size and each address are cleared before the block is freed, the kernel clears an address after freeing its block and the size last; the inode is locked throughout.
- Files.FileSystem.Writei: a failed copy is a parameter: which chunk fails, and after how many bytes.
- Files.FileSystem.Ialloc: device numbers of device inodes are not modelled.
- WorstCase.WorstDisk: marks the blocks that no file uses as metadata, more than a real disk has.
- Links.Directories.LinkStart: counts are unbounded, the kernel's are 16 bits wide.
- Links.Directories.DirLink: whether the directory can grow is a parameter.
- Links.Directories.Create: device numbers are not modelled.
- Vm.Machine.Uvmunmap: an entry is cleared before its frame is freed, the kernel does it the other way round; both happen in one step here.
- Vm.Machine.Freewalk: likewise.
- Vm.Machine.Walk: entries are values with a frame and flags; the accessed and dirty bits, and the layout of the 64-bit word, are not modelled.
- Exec.ExecSpace: the reads of the ELF and program headers and the name of the process are not modelled; a segment comes with what the file holds from its offset on.
- Exec.CopyArgs: a copy to the stack page, which is mapped and writable, is one write of it; thirty-two arguments or more are refused here, in the kernel before the call (xv6/kernel/sysfile.c:434-475).
- Pipes.Pipe.Write: when the writer is killed and when a copy fails are parameters.
- ProcessTree.ProcTable.Exit: children are handed over and the state changes before anyone is woken; the kernel wakes init for each child and the parent first, all under `wait_lock`, which those woken must take.
- ProcessTree.ProcTable.Wait: the copy of the exit status is a parameter that says whether it fails.
- Virtq.VirtioDisk.Submit: takes the sector, which the kernel computes as twice the block number.
- Virtq.VirtioDisk.Alone: with other requests in progress the order is the device's, and each step has its own contract.
- Virtq.VirtioDisk.DeviceComplete: the device is any that completes what it has fetched, in any order; a device that reports an error is not modelled, the kernel panics on it.
- Umalloc.Heap.Malloc: `grant` is memory that the system gives; an answer of `sbrk` that comes without memory (see Umalloc.AskSystem) is none, and what the program does with such an address is not modelled.
- Umalloc.Heap.Morecore: likewise.
- Shell.Scan: memory allocation for the command tree and the shell's execution of it are not modelled.
