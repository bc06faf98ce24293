# xv6 in Dafny

This project models the kernel and user-level core of the xv6 trees in this repository and proves what
that code is for: a file system that survives crashes, files that are byte strings, directories that are
maps, an allocator that loses nothing, a parser that accepts its grammar and nothing else, and processes
and locks that lose no wakeup.

`dafny verify dfyconfig.toml` checks everything.

The model takes each component from one tree: the file system, memory, pipe, shell and grep from
`Assignment/Assignment_2/Assignment_2_Q_2`, sleep-locks and the life cycle of processes from
`Assignment/cs236-xv6-mac`, the aging scheduler from `Assignment/Assignment_2/cs236-xv6-mac-a2`.

## How it is organised

| files | component |
|---|---|
| `Blocks.dfy`, `BufferCache.dfy` | disk blocks as bytes; the buffer cache (`bio.c`, `memide.c`) as a class over linked-list indices, and what its readers see |
| `Recovery.dfy`, `GroupCommit.dfy`, `Log.dfy` | the redo log: the crash theorem over single block writes, the protocol of `begin_op`, `log_write` and `end_op` in every interleaving, and the class that runs on the cache and produces exactly those writes |
| `Layout.dfy`, `Inodes.dfy`, `FileData.dfy`, `WriteBudget.dfy`, `FileSystem.dfy` | free map, block pointers and ownership; inodes as bytes of their blocks; files as byte strings; what and how much a write logs; the operations of `fs.c` and `file.c` |
| `CrashSafety.dfy` | the file operations committed through the log: what a crash leaves of a file, read off the recovered disk |
| `DiskFormat.dfy` | where every byte of the log header, the free map, inodes, files and directories is on the disk, in a form that does not mention the code that reads and writes it |
| `Directory.dfy`, `Paths.dfy`, `Links.dfy`, `Mkfs.dfy` | directories as maps, path names, link counts, and the file system that `mkfs` makes |
| `FreeList.dfy`, `Malloc.dfy` | the user-level allocator (`umalloc.c`) |
| `KernelMemory.dfy`, `UserMemory.dfy`, `Mapping.dfy`, `Resizing.dfy`, `Duplication.dfy`, `AddressSpace.dfy` | physical pages and whose they are, user memory as bytes, and page tables that grow, shrink, are copied and freed (`kalloc.c`, `vm.c`) |
| `Grammar.dfy`, `Syntax.dfy`, `RoundTrip.dfy`, `Shell.dfy` | the shell's parser (`sh.c`): as functions, against a grammar over tokens, against printing, and as it runs |
| `Matcher.dfy` | grep's pattern matcher |
| `Pipe.dfy`, `SleepLock.dfy`, `Processes.dfy`, `LifeCycle.dfy`, `Scheduler.dfy` | concurrency: pipes, sleep-locks over `sleep` and `wakeup`, the process table and its steps, the aging scheduler |

Code that changes state in place is modelled by classes and methods with loops; each is proved against
functions of the old state, and the promises are proved about those functions. Concurrency is modelled
by transition systems whose steps are the stretches of code under one spinlock, or finer; a run is any
sequence of events. Inputs from outside (what `sbrk` grants, which process a clock interrupt preempts,
whether `kalloc` succeeds inside `fork`) are parameters or choices of the environment.

## What the proofs found

- The log's reservation is one block short. `begin_op` reserves ten blocks for each operation out of
  thirty, but `log_write` refuses the thirtieth block (`log.c:218`), and does so before it looks whether
  the block is in the log already. Three operations that start together and log ten different blocks
  each panic (`GroupCommit.TenCanPanic`); no run panics exactly if operations log at most nine blocks
  (`GroupCommit.PanicFreeIff`).
- `filewrite`'s chunk of 1536 bytes logs at most ten blocks whatever the layout, that bound is reached,
  and one block more would exceed it. While the free map is a single bitmap block, as with the
  file-system size this tree is built with (1000 blocks), a chunk logs at most seven, which is within
  the nine.
- `malloc` rounds in 32 bits. The block is large enough exactly for requests up to 2^32 - 8 bytes, and
  `sbrk` is asked for a positive amount exactly for requests up to 2^31 - 16 bytes or beyond 2^32 - 8.
- `dirlink` stores inode numbers in 16 bits, so that a link refines the map exactly for numbers from 1
  to 65535.
- `fork`'s copy of an address space of k pages needs exactly 65 + k + ceil(k / 1024) free pages: one for
  the directory, 64 for the kernel's tables, the rest for user pages and their tables. With one page less
  `copyuvm` returns 0 and memory is as it was.
- The aging scheduler takes sleep for waiting. `sleep` charges the time asleep only when the process has
  been dispatched again (`cs236-xv6-mac-a2/proc.c:463`), so that until then a woken process competes with
  the ticks of its last sleep counted as ticks waited (`Scheduler.SleepCountsAsWaiting`). What the scan
  computes is stated for every history in `Scheduler.PriorityMeans`, and when that is the time waited in
  `Scheduler.MeasuresWaitingIff`.

## Model

| member | source | states |
|---|---|---|
| `Blocks.WordAfterSet` | Assignment/Assignment_2/Assignment_2_Q_2/log.c:103-111 | a 32-bit word stored in a block is read back, and every other word is as before |
| `Blocks.BitAfterSet` | Assignment/Assignment_2/Assignment_2_Q_2/fs.c:66-70 | setting or clearing one bit of a bitmap block changes that bit and no other |
| `DiskFormat.LogHeader` | Assignment/Assignment_2/Assignment_2_Q_2/log.c:34-37 | the header that write_head makes is the count in its first four bytes and the block numbers in the next, four bytes each, all little-endian |
| `DiskFormat.FreeMapBit` | Assignment/Assignment_2/Assignment_2_Q_2/fs.h:45-48 | block b is in use exactly if bit b mod 8, worth 2^(b mod 8), is set in byte (b mod 4096) / 8 of block bmapstart + b / 4096 |
| `DiskFormat.InodePlace` | Assignment/Assignment_2/Assignment_2_Q_2/fs.h:28-42 | inode i is the 64 bytes from 64 (i mod 8) on of block inodestart + i / 8: type, nlink, size and thirteen addresses at the offsets of struct dinode, little-endian |
| `DiskFormat.DinodeWritten` | Assignment/Assignment_2/Assignment_2_Q_2/fs.h:29-36 | iupdate writes those fields at those offsets, and leaves the device numbers and all other bytes of the block as they are |
| `DiskFormat.FileByte` | Assignment/Assignment_2/Assignment_2_Q_2/fs.c:363-400 | byte k of a file is byte k mod 512 of the block that address k / 512 names: the first twelve in the inode, the rest in the block that its last address names |
| `DiskFormat.EntryPlace` | Assignment/Assignment_2/Assignment_2_Q_2/fs.h:50-56 | entry k of a directory is its sixteen bytes from 16 k on: two of inode number, little-endian, and fourteen of name |
| `DiskFormat.NameBytes` | Assignment/Assignment_2/Assignment_2_Q_2/fs.c:572 | the fourteen bytes stored for a name are the name up to its first zero or the fourteenth byte, and zeros |
| `BufferCache.RingInverse` | Assignment/Assignment_2/Assignment_2_Q_2/bio.c:30-36 | in the list of buffers prev and next are inverse to each other |
| `BufferCache.LinkedAfterInsert` | Assignment/Assignment_2/Assignment_2_Q_2/bio.c:131-137 | taking a buffer out and linking it in right behind the head leaves one ring of all buffers, in the moved order |
| `BufferCache.ShowsAfterRecycle` | Assignment/Assignment_2/Assignment_2_Q_2/bio.c:78-88 | recycling a clean, unreferenced buffer for another block changes nothing that readers see: eviction loses no data |
| `BufferCache.ShowsOneView` | Assignment/Assignment_2/Assignment_2_Q_2/bio.c:94-115 | cache and disk together show one contents for every block: what readers see is unique |
| `BufferCache.RecencyMoved` | Assignment/Assignment_2/Assignment_2_Q_2/bio.c:130-137 | with a released buffer moved to the front, the list is ordered by last release: nobody stands before a buffer that was released later |
| `BufferCache.OldestIs` | Assignment/Assignment_2/Assignment_2_Q_2/bio.c:76-90 | the buffer that bget recycles is one whose last release is the longest ago of all that could be recycled |
| `BufferCache.CleanViewIsDisk` | Assignment/Assignment_2/Assignment_2_Q_2/bio.c:94-105 | when no buffer is dirty or held, what readers see is the disk |
| `BufferCache.FullyPinned` | Assignment/Assignment_2/Assignment_2_Q_2/bio.c:74-92 | all thirty buffers are in use only if thirty are referenced or pinned, so that fewer never make bget panic |
| `BufferCache.BCache.constructor` | Assignment/Assignment_2/Assignment_2_Q_2/bio.c:38-57 | binit: thirty empty buffers in one ring, newest initialised first, and readers see the disk image |
| `BufferCache.BCache.Bget` | Assignment/Assignment_2/Assignment_2_Q_2/bio.c:61-92 | the buffer of the block, or the least recently released one that is unreferenced and clean, recycled; it fails exactly if the block is not cached and all buffers are in use |
| `BufferCache.BCache.Bread` | Assignment/Assignment_2/Assignment_2_Q_2/bio.c:95-105 | bread returns the last contents written or logged for the block, and changes nothing that readers see; each block has one buffer; a recycled buffer is the one released the longest ago; it fails exactly if the block is in no buffer and every buffer is referenced or dirty |
| `BufferCache.BCache.Bwrite` | Assignment/Assignment_2/Assignment_2_Q_2/bio.c:109-115 | the buffer reaches the disk in one block write, and nothing else does |
| `BufferCache.BCache.Brelse` | Assignment/Assignment_2/Assignment_2_Q_2/bio.c:119-141 | one reference less; at the last one the buffer is the last released, and the list stays ordered by last release |
| `BufferCache.BCache.Iderw` | Assignment/Assignment_2/Assignment_2_Q_2/memide.c:38-60 | a dirty buffer is written out and clean afterwards, any other is filled from the disk |
| `Recovery.HeaderRoundTrip` | Assignment/Assignment_2/Assignment_2_Q_2/log.c:86-113 | read_head gives back the block numbers that write_head stored |
| `Recovery.RecoverEffect` | Assignment/Assignment_2/Assignment_2_Q_2/log.c:115-122 | a complete recovery installs exactly the logged blocks, empties the header and changes nothing else |
| `Recovery.CrashThenRecover` | Assignment/Assignment_2/Assignment_2_Q_2/log.c:68-82 | a recovery that crashed after any of its writes, run again, gives what one undisturbed recovery gives |
| `Recovery.RecoverAfterCrashes` | Assignment/Assignment_2/Assignment_2_Q_2/log.c:115-122 | the same for any number of crashed recoveries before the one that completes |
| `Recovery.CrashAtomicity` | Assignment/Assignment_2/Assignment_2_Q_2/log.c:176-202 | a commit that crashes after any k of its block writes, then any number of crashing recoveries, then a complete one: all home blocks are new if and only if the header write was among the k, else all are old; nothing outside the log and the transaction changes, and the log is empty |
| `Recovery.CommitComplete` | Assignment/Assignment_2/Assignment_2_Q_2/log.c:192-202 | a commit that runs to its end installs the transaction and empties the log; a later recovery changes nothing |
| `GroupCommit.CommitHoldsFinishedOnly` | Assignment/Assignment_2/Assignment_2_Q_2/log.c:143-174 | in every interleaving a commit happens with no operation outstanding and holds blocks of finished operations only, each block once |
| `GroupCommit.ReservationHolds` | Assignment/Assignment_2/Assignment_2_Q_2/log.c:124-141 | logged blocks plus all that running operations may still log never exceed the log's thirty blocks |
| `GroupCommit.SleepersWillWake` | Assignment/Assignment_2/Assignment_2_Q_2/log.c:128-136 | a process asleep in begin_op implies a commit under way or an operation inside that will wake it |
| `GroupCommit.SleepersMustWait` | Assignment/Assignment_2/Assignment_2_Q_2/log.c:128-136 | in every run whoever is asleep in begin_op faces a commit under way, or thirty blocks that would not hold the log and ten more for one more operation: nobody sleeps on after room has come back |
| `GroupCommit.NineIsSafe` | Assignment/Assignment_2/Assignment_2_Q_2/log.c:213-233 | operations that log at most nine blocks never make log_write panic |
| `GroupCommit.TenCanPanic` | Assignment/Assignment_2/Assignment_2_Q_2/log.c:218-219 | three operations of ten blocks each, started together, panic |
| `GroupCommit.PanicFreeIff` | Assignment/Assignment_2/Assignment_2_Q_2/log.c:124-141 | no run panics if and only if operations log at most nine blocks each |
| `Log.Log.CopyBlock` | Assignment/Assignment_2/Assignment_2_Q_2/log.c:69-82 | the step of write_log and install_trans: one block write that makes the destination equal to what readers see of the source |
| `Log.Log.WriteLog` | Assignment/Assignment_2/Assignment_2_Q_2/log.c:176-190 | the visible contents of the logged blocks are written to the log's data blocks, in order, and nothing else is |
| `Log.Log.InstallTrans` | Assignment/Assignment_2/Assignment_2_Q_2/log.c:68-82 | the log's data blocks are written to their home blocks, in order |
| `Log.Log.Commit` | Assignment/Assignment_2/Assignment_2_Q_2/log.c:192-202 | commit never runs out of buffers, its block writes are exactly those of the crash theorem, and afterwards disk and visible contents agree and the log is empty |
| `Log.Log.RecoverFromLog` | Assignment/Assignment_2/Assignment_2_Q_2/log.c:115-122 | recovery on the cache makes exactly the block writes of the crash theorem's recovery |
| `Log.Log.LogWrite` | Assignment/Assignment_2/Assignment_2_Q_2/log.c:213-233 | a logged block is pinned in the cache and recorded once; it is refused exactly if the header holds 29 blocks or no operation is running |
| `Log.Log.EndOp` | Assignment/Assignment_2/Assignment_2_Q_2/log.c:143-174 | the last operation out commits: the disk then shows what readers saw |
| `Log.CommitTrace` | Assignment/Assignment_2/Assignment_2_Q_2/log.c:192-202 | the four phases of commit, one after the other, are the writes of the crash theorem |
| `Layout.InUseAfterSet` | Assignment/Assignment_2/Assignment_2_Q_2/fs.c:56-95 | setting or clearing a free-map bit changes the state of that block only |
| `Layout.OwnedMeans` | Assignment/Assignment_2/Assignment_2_Q_2/fs.c:40-95 | a free-map bit is set if and only if the block is metadata or some pointer names it, metadata is named by none, and no two pointers name one block |
| `Layout.OwnedAfterTake` | Assignment/Assignment_2/Assignment_2_Q_2/fs.c:56-78 | balloc keeps ownership: the block it takes is zeroed and named by nobody yet, and no pointer changes |
| `Layout.OwnedAfterIndirectLink` | Assignment/Assignment_2/Assignment_2_Q_2/fs.c:386-396 | naming a new block in an indirect block keeps ownership and changes that one pointer |
| `Layout.OwnedAfterTruncate` | Assignment/Assignment_2/Assignment_2_Q_2/fs.c:407-435 | freeing exactly the blocks of one inode and clearing its pointers keeps ownership and every other inode's pointers |
| `Inodes.InodeAfterPut` | Assignment/Assignment_2/Assignment_2_Q_2/fs.c:225-233 | an inode written to its 64 bytes is read back, and the block's other seven inodes are as before |
| `Inodes.InodesAfterUpdate` | Assignment/Assignment_2/Assignment_2_Q_2/fs.c:220-236 | iupdate changes exactly one inode on disk |
| `FileData.GrownByLink` | Assignment/Assignment_2/Assignment_2_Q_2/fs.c:372-381 | allocating a direct or the indirect block gives the inode that pointer and disturbs nothing it or others have |
| `FileData.GrownByEntry` | Assignment/Assignment_2/Assignment_2_Q_2/fs.c:384-396 | the same for an entry of the indirect block |
| `FileData.PrefixAfterMap` | Assignment/Assignment_2/Assignment_2_Q_2/fs.c:372-400 | mapping the next block of a file without holes leaves no hole, and the indirect block exists exactly if needed |
| `FileData.BytesAfterPatch` | Assignment/Assignment_2/Assignment_2_Q_2/fs.c:494-501 | copying bytes into one block of a file changes exactly those bytes of that file |
| `FileData.WritingStep` | Assignment/Assignment_2/Assignment_2_Q_2/fs.c:494-501 | one turn of writei's loop extends the written stretch, keeps all other bytes of the file and everything of other files |
| `FileData.WriteFinishedImage` | Assignment/Assignment_2/Assignment_2_Q_2/fs.c:503-508 | after the loop and the new size the contents are the old ones with the source spliced in, without holes, ownership kept, all other files the same |
| `FileData.ChunkOfContent` | Assignment/Assignment_2/Assignment_2_Q_2/fs.c:464-470 | a stretch of a file's block is that stretch of the file's contents |
| `FileData.SameFileContent` | Assignment/Assignment_2/Assignment_2_Q_2/fs.c:481-511 | a file whose blocks and inode are untouched has the same contents |
| `WriteBudget.WithinStep` | Assignment/Assignment_2/Assignment_2_Q_2/fs.c:494-501 | each turn of writei's loop adds at most the data block, and for a new one its bitmap block, the indirect block and its bitmap block |
| `WriteBudget.ChunkFits` | Assignment/Assignment_2/Assignment_2_Q_2/file.c:127-133 | 1536 bytes at any offset up to the size, on a file without holes, cost at most ten distinct log blocks with the inode's, across the direct and indirect boundary |
| `WriteBudget.ChunkBoundIsTight` | Assignment/Assignment_2/Assignment_2_Q_2/file.c:127-133 | an append that starts in the last direct block reaches ten |
| `WriteBudget.FourBlocksDoNotFit` | Assignment/Assignment_2/Assignment_2_Q_2/file.c:133 | a chunk of one block more would exceed ten |
| `WriteBudget.BudgetMet` | Assignment/Assignment_2/Assignment_2_Q_2/file.c:133-145 | the set of blocks logged by one chunk has at most ten elements, and at most seven with a single bitmap block |
| `FileSystem.Fs.Balloc` | Assignment/Assignment_2/Assignment_2_Q_2/fs.c:55-78 | the lowest free block is marked and zeroed; it fails exactly if no block is free |
| `FileSystem.Fs.Bfree` | Assignment/Assignment_2/Assignment_2_Q_2/fs.c:80-95 | the bit is cleared; the panic for a free block is returned exactly if the bit is clear |
| `FileSystem.Fs.Bmap` | Assignment/Assignment_2/Assignment_2_Q_2/fs.c:372-400 | the block that holds a file's n-th block, allocated and zeroed if there is none, nothing else disturbed, and exactly which blocks that logs |
| `FileSystem.Fs.Writei` | Assignment/Assignment_2/Assignment_2_Q_2/fs.c:480-511 | refused exactly for a start past the end, a 32-bit wrap-around or a result past the largest file; otherwise the contents become the splice, other files are untouched, ownership and the inode blocks are kept in order, every block that changes is logged, and a chunk logs at most ten blocks |
| `FileSystem.Fs.Readi` | Assignment/Assignment_2/Assignment_2_Q_2/fs.c:450-473 | the stretch of the contents that was asked for, cut at the file's end; nothing changes |
| `FileSystem.ReadBack` | Assignment/Assignment_2/Assignment_2_Q_2/fs.c:450-511 | reading where one has just written gives what was written, before and behind it what was there |
| `FileSystem.Fs.Itrunc` | Assignment/Assignment_2/Assignment_2_Q_2/fs.c:407-435 | exactly the inode's blocks are freed, none of them twice, and the file is empty; all other files are untouched, and every block that changes is logged |
| `FileSystem.FreedStep` | Assignment/Assignment_2/Assignment_2_Q_2/fs.c:412-431 | the block about to be freed is still in use, so that the panic for freeing a free block is unreachable |
| `FileSystem.Fs.Iput` | Assignment/Assignment_2/Assignment_2_Q_2/fs.c:331-352 | an inode is truncated and freed if and only if it is valid, has no links and this is the last reference |
| `FileSystem.Fs.Iupdate` | Assignment/Assignment_2/Assignment_2_Q_2/fs.c:220-236 | the inode's bytes in its block become those of the in-memory copy, and the block is logged |
| `FileSystem.OutKeeps` | Assignment/Assignment_2/Assignment_2_Q_2/fs.c:220-236 | iupdate changes no file, and brings the inode blocks up to date with the in-memory inodes |
| `FileSystem.Fs.Filewrite` | Assignment/Assignment_2/Assignment_2_Q_2/file.c:116-156 | returns n exactly if the whole request is possible, and then the chunks together are one splice of the whole buffer; otherwise the chunks before the first impossible one are written; there are as many transactions as chunks, each logs at most ten blocks and all that it changes, and after k of them the first k chunks are in the file |
| `FileSystem.RunStep` | Assignment/Assignment_2/Assignment_2_Q_2/file.c:134-151 | one more chunk in its transaction extends such a run |
| `FileSystem.SpliceSplice` | Assignment/Assignment_2/Assignment_2_Q_2/file.c:134-151 | two adjacent splices are one splice of both buffers |
| `FileSystem.Fs.Fileread` | Assignment/Assignment_2/Assignment_2_Q_2/file.c:95-114 | the next bytes of the file, and the offset moves past them |
| `CrashSafety.TransactionIsChange` | Assignment/Assignment_2/Assignment_2_Q_2/file.c:133-145 | a chunk's transaction is a change that one commit can make permanent |
| `CrashSafety.ChangesTogether` | Assignment/Assignment_2/Assignment_2_Q_2/log.c:143-174 | the operations of one group commit make one such change |
| `CrashSafety.CommittingIsReady` | Assignment/Assignment_2/Assignment_2_Q_2/log.c:192-202 | the changed blocks, listed in the header, meet the conditions of the crash theorem |
| `CrashSafety.ImageSurvives` | Assignment/Assignment_2/Assignment_2_Q_2/log.c:115-122 | the disk left by any crash of the commit and of its recoveries is that of the file system before the change, or after it exactly if the header write was made |
| `CrashSafety.ReadOff` | Assignment/Assignment_2/Assignment_2_Q_2/fs.c:286-310 | from the bytes of such a disk alone come the same inodes, free map, pointers and contents |
| `CrashSafety.WriteSurvives` | Assignment/Assignment_2/Assignment_2_Q_2/fs.c:480-511 | a write survives a crash whole or not at all: the file on the recovered disk is the old one or the splice, the splice exactly if the header write was made, every other file is as before, and the file system is in order |
| `CrashSafety.FilewriteSurvives` | Assignment/Assignment_2/Assignment_2_Q_2/file.c:116-156 | if the commit of chunk t crashes, the file on the recovered disk has exactly the first t or t + 1 chunks of the buffer, and every other file is as before the call |
| `Directory.KeyOfPadded` | Assignment/Assignment_2/Assignment_2_Q_2/fs.c:572 | a name stored with strncpy is the same name, cut to 14 bytes |
| `Directory.Namecmp` | Assignment/Assignment_2/Assignment_2_Q_2/fs.c:516-520 | two names compare equal exactly if their first 14 bytes up to a zero agree |
| `Directory.EntriesAfterWrite` | Assignment/Assignment_2/Assignment_2_Q_2/fs.c:572-575 | writing the sixteen bytes of one entry replaces or appends exactly that entry |
| `Directory.Dirlookup` | Assignment/Assignment_2/Assignment_2_Q_2/fs.c:524-548 | the first entry in use under the name, or none; nothing changes |
| `Directory.LookupRefinesMap` | Assignment/Assignment_2/Assignment_2_Q_2/fs.c:524-548 | dirlookup is lookup in the directory's map |
| `Directory.Dirlink` | Assignment/Assignment_2/Assignment_2_Q_2/fs.c:551-578 | refused exactly if the name is there; else the entry goes into the first free place or behind the last, and nothing else changes |
| `Directory.LinkRefinesMap` | Assignment/Assignment_2/Assignment_2_Q_2/fs.c:551-578 | dirlink adds exactly the name to the map, names stay unique, and the inode number read back is the one stored if and only if it is between 1 and 65535 |
| `Directory.NamesAfterUnlink` | Assignment/Assignment_2/Assignment_2_Q_2/sysfile.c:215-217 | clearing an entry removes exactly its name from the map |
| `Directory.ClearEntry` | Assignment/Assignment_2/Assignment_2_Q_2/sysfile.c:215-217 | unlink's write of an empty entry always fits and changes that entry only |
| `Directory.EmptyMeans` | Assignment/Assignment_2/Assignment_2_Q_2/sysfile.c:168-180 | with the first two entries in place, nothing in use behind them means that the map holds '.' and '..' only |
| `Directory.IsDirEmpty` | Assignment/Assignment_2/Assignment_2_Q_2/sysfile.c:168-180 | true exactly if no entry from the third on is in use, that is, if the map holds '.' and '..' only |
| `Paths.Skipelem` | Assignment/Assignment_2/Assignment_2_Q_2/fs.c:595-619 | the next element cut to 14 bytes and the path behind it, or nothing exactly if no element is left |
| `Paths.ElemsAreComponents` | Assignment/Assignment_2/Assignment_2_Q_2/fs.c:582-619 | calling skipelem until it returns nothing gives exactly the nonempty pieces between slashes, cut to 14 bytes |
| `Paths.ParentThenLast` | Assignment/Assignment_2/Assignment_2_Q_2/fs.c:660-671 | namei finds what a lookup of the last component finds in the directory that nameiparent finds |
| `Paths.Namex` | Assignment/Assignment_2/Assignment_2_Q_2/fs.c:624-657 | the fold of lookup over the path's components from the root or the current directory; for a parent lookup the directory of the last component and its name; it ends on every path |
| `Links.LinkStartKeeps` | Assignment/Assignment_2/Assignment_2_Q_2/sysfile.c:141-143 | raising nlink before the entry is made keeps all counts, with the link counted as under way |
| `Links.Table.LinkFirst` | Assignment/Assignment_2/Assignment_2_Q_2/sysfile.c:136-144 | refused exactly for a directory; otherwise one link, one reference and one link under way more, and nothing else changes |
| `Links.LinkBadKeeps` | Assignment/Assignment_2/Assignment_2_Q_2/sysfile.c:159-165 | the undo path of sys_link keeps all counts |
| `Links.LinkDoneKeeps` | Assignment/Assignment_2/Assignment_2_Q_2/sysfile.c:145-154 | making the entry keeps all counts |
| `Links.UnlinkedKeeps` | Assignment/Assignment_2/Assignment_2_Q_2/sysfile.c:215-227 | unlink of a file or empty directory keeps all counts, the parent's for the entry '..' included |
| `Links.CreatedKeeps` | Assignment/Assignment_2/Assignment_2_Q_2/sysfile.c:258-279 | create of a file or directory keeps all counts |
| `Links.NamedHasLink` | Assignment/Assignment_2/Assignment_2_Q_2/sysfile.c:208-209 | what an entry names has at least one link: the panic in unlink is unreachable |
| `Links.EmptyDirRefs` | Assignment/Assignment_2/Assignment_2_Q_2/sysfile.c:210-227 | an empty directory has exactly one link, so that removing it leaves none |
| `Links.NlinkIsCount` | Assignment/Assignment_2/Assignment_2_Q_2/sysfile.c:118-283 | with no link under way, nlink is the number of entries in linked directories that name the inode, '.' not counted |
| `Links.AllocatedIffHeld` | Assignment/Assignment_2/Assignment_2_Q_2/fs.c:331-352 | an inode is allocated if and only if it is referenced or named: none is freed early, none leaks |
| `Links.Table.LinkSecond` | Assignment/Assignment_2/Assignment_2_Q_2/sysfile.c:145-165 | made exactly if there is a parent directory without the name: the entry is added, or nlink is lowered again; the reference is given back and no other inode changes; all counts stay right |
| `Links.Table.Unlink` | Assignment/Assignment_2/Assignment_2_Q_2/sysfile.c:184-237 | succeeds exactly for a name that is there, is not '.' or '..' and names no directory with other entries; then the entry is gone, the inode has one link less and is freed exactly without links and references, a directory's parent has one less too, and no other inode changes; all counts stay right |
| `Links.Table.Create` | Assignment/Assignment_2/Assignment_2_Q_2/sysfile.c:239-283 | an existing file is opened if a file is asked for and anything else that exists refused; otherwise a free inode gets the type, one link, one reference and, for a directory, '.' and '..', the parent gets the entry and, for a directory, a link more, and no other inode changes; all counts stay right |
| `Mkfs.MadeSettled` | Assignment/Assignment_2/Assignment_2_Q_2/mkfs.c:91-165 | the file system that mkfs makes of no files is in order, and no file has a hole |
| `Mkfs.MadeRoot` | Assignment/Assignment_2/Assignment_2_Q_2/mkfs.c:117-128 | its root directory is the map of '.' and '..' to itself |
| `Mkfs.MadeLinks` | Assignment/Assignment_2/Assignment_2_Q_2/mkfs.c:117-128 | its link counts are right |
| `FreeList.InsertedCanonical` | Assignment/Assignment_2/Assignment_2_Q_2/umalloc.c:30-44 | giving back a block keeps the list in address order without overlap and without two adjacent free blocks |
| `FreeList.InsertedHas` | Assignment/Assignment_2/Assignment_2_Q_2/umalloc.c:30-44 | it adds exactly the block's units to the free ones |
| `FreeList.CarveHas` | Assignment/Assignment_2/Assignment_2_Q_2/umalloc.c:73-80 | taking units from the end of a block removes exactly those from the free ones |
| `FreeList.CarveInsert` | Assignment/Assignment_2/Assignment_2_Q_2/umalloc.c:24-82 | giving back what has just been taken restores the very same list |
| `FreeList.CanonicalUnique` | Assignment/Assignment_2/Assignment_2_Q_2/umalloc.c:24-44 | the list is determined by the set of free units |
| `FreeList.InsertedTotal` | Assignment/Assignment_2/Assignment_2_Q_2/umalloc.c:30-44 | the number of free units grows by the block's length |
| `FreeList.CarveTotal` | Assignment/Assignment_2/Assignment_2_Q_2/umalloc.c:73-80 | the number of free units shrinks by the request |
| `Malloc.UnitsSuffice` | Assignment/Assignment_2/Assignment_2_Q_2/umalloc.c:69 | the block is large enough for the request, and no unit larger, if and only if nbytes is at most 2^32 - 8 |
| `Malloc.SbrkAsksRight` | Assignment/Assignment_2/Assignment_2_Q_2/umalloc.c:52-54 | sbrk is asked for the units meant if and only if the request is at most 2^31 - 16 bytes or has wrapped around; otherwise for a negative or zero amount |
| `Malloc.StopsAt` | Assignment/Assignment_2/Assignment_2_Q_2/umalloc.c:30-32 | the search loop of free stops exactly at the last free block below the one given back |
| `Malloc.WritesLink` | Assignment/Assignment_2/Assignment_2_Q_2/umalloc.c:33-43 | the header writes of free link the list with the block joined to its neighbours |
| `Malloc.Heap.Free` | Assignment/Assignment_2/Assignment_2_Q_2/umalloc.c:24-44 | the block goes back into the ring, joined with its neighbours; other blocks handed out are untouched, and every unit obtained from sbrk is still in exactly one free or live block |
| `Malloc.Heap.Morecore` | Assignment/Assignment_2/Assignment_2_Q_2/umalloc.c:46-60 | at least 4096 units from sbrk join the free list; on failure nothing changes |
| `Malloc.Heap.Malloc` | Assignment/Assignment_2/Assignment_2_Q_2/umalloc.c:63-90 | the first block that fits after freep around the ring, cut from its end; sbrk is called only if none fits; it fails exactly if none fits and sbrk fails; the search ends |
| `Malloc.FreeUndoesMalloc` | Assignment/Assignment_2/Assignment_2_Q_2/umalloc.c:24-90 | free of what malloc has just returned restores the free list when sbrk was not called, and else leaves it with sbrk's memory in it |
| `Matcher.FirstItem` | Assignment/Assignment_2/Assignment_2_Q_2/grep.c:85-106 | a pattern matches exactly if its first item accepts a prefix and the rest matches what remains |
| `Matcher.MatchHere` | Assignment/Assignment_2/Assignment_2_Q_2/grep.c:85-96 | true exactly if a match of the pattern begins where the text begins |
| `Matcher.MatchStar` | Assignment/Assignment_2/Assignment_2_Q_2/grep.c:99-106 | true exactly if some number of characters that fit, followed by a match of the rest, begins the text |
| `Matcher.Match` | Assignment/Assignment_2/Assignment_2_Q_2/grep.c:72-82 | true if and only if some stretch of the text is in the pattern's language, from the text's start for '^' and to its end for a final '$' |
| `Grammar.WordEndMeans` | Assignment/Assignment_2/Assignment_2_Q_2/sh.c:295-297 | a word token is a maximal run of characters that are neither white space nor symbols |
| `Syntax.LexScans` | Assignment/Assignment_2/Assignment_2_Q_2/sh.c:262-308 | what gettoken finds one after the other are the tokens of the buffer: words that go as far as they can, the seven symbols and >>, with white space anywhere between |
| `Syntax.RedirsComplete` | Assignment/Assignment_2/Assignment_2_Q_2/sh.c:374-397 | every row of signs and words is accepted: < reads from the file, > and >> write to it |
| `Syntax.RedirsSound` | Assignment/Assignment_2/Assignment_2_Q_2/sh.c:374-397 | what parseredirs accepts is such a row of tokens, with those redirections |
| `Syntax.WordsComplete` | Assignment/Assignment_2/Assignment_2_Q_2/sh.c:415-447 | every mixture of at most nine words with redirections before, between and behind them is accepted, with the words as arguments and the redirections in their order |
| `Syntax.WordsSound` | Assignment/Assignment_2/Assignment_2_Q_2/sh.c:415-447 | what the loop of parseexec accepts is such a mixture |
| `Syntax.LineComplete` | Assignment/Assignment_2/Assignment_2_Q_2/sh.c:344-413 | every line of the grammar - commands, blocks in parentheses with redirections, pipes, background marks, lists - in front of the end or a ')' is accepted with its tree |
| `Syntax.LineSound` | Assignment/Assignment_2/Assignment_2_Q_2/sh.c:344-413 | what parseline accepts is a line of the grammar with that tree |
| `Syntax.ParseIff` | Assignment/Assignment_2/Assignment_2_Q_2/sh.c:327-342 | parsing gives a tree if and only if the buffer's tokens are a line of the grammar with this tree; a missing ')', a missing file, leftovers or a tenth word mean that there is none |
| `RoundTrip.RedirsBack` | Assignment/Assignment_2/Assignment_2_Q_2/sh.c:374-397 | parseredirs reads back any number of printed redirections |
| `RoundTrip.ArgsBack` | Assignment/Assignment_2/Assignment_2_Q_2/sh.c:427-443 | the loop of parseexec reads back the printed words and redirections, for at most nine words |
| `RoundTrip.BacksBack` | Assignment/Assignment_2/Assignment_2_Q_2/sh.c:349-353 | background marks are read back in their nesting |
| `RoundTrip.LineBack` | Assignment/Assignment_2/Assignment_2_Q_2/sh.c:344-359 | parseline reads back every printed tree in front of what may follow it |
| `RoundTrip.ParsePrint` | Assignment/Assignment_2/Assignment_2_Q_2/sh.c:327-342 | printing any command tree with legal words, at most nine to a command, and parsing the text gives back the same tree |
| `Shell.LineGood` | Assignment/Assignment_2/Assignment_2_Q_2/sh.c:344-447 | whatever the parser accepts, all words of the tree are words of the buffer that end where they end there |
| `Shell.NoneClobbered` | Assignment/Assignment_2/Assignment_2_Q_2/sh.c:449-493 | with a zero written at every word's end, each string in the buffer is exactly its token |
| `Shell.Parser.Gettoken` | Assignment/Assignment_2/Assignment_2_Q_2/sh.c:265-308 | token, place and new cursor are those of the grammar |
| `Shell.Parser.Parseredirs` | Assignment/Assignment_2/Assignment_2_Q_2/sh.c:374-397 | the redirections that Syntax.RedirsComplete and Syntax.RedirsSound tie to the tokens, > and >> alike for output, or the panic for a missing file |
| `Shell.Parser.Parseexec` | Assignment/Assignment_2/Assignment_2_Q_2/sh.c:415-447 | the tree and position of the grammar; parsing ends on every input |
| `Shell.Parser.Parseline` | Assignment/Assignment_2/Assignment_2_Q_2/sh.c:344-359 | the tree and position of the grammar, or a panic exactly where the grammar has none |
| `Shell.Parser.Nulterminate` | Assignment/Assignment_2/Assignment_2_Q_2/sh.c:449-493 | exactly the positions at which words end become zero |
| `Shell.Parser.Parsecmd` | Assignment/Assignment_2/Assignment_2_Q_2/sh.c:327-342 | returns a tree if and only if the buffer is a line of the grammar with that tree, and panics on every other buffer; then at every word's place there is a string that is that word |
| `Pipe.Ring.Write` | Assignment/Assignment_2/Assignment_2_Q_2/pipe.c:78-97 | pipewrite from its i-th byte on appends the bytes up to the j-th, all of them unless the ring is full; it returns exactly if all are in, and fails exactly if some are not and no reader is left or the process is killed; counters wrap at 2^32 |
| `Pipe.Ring.Read` | Assignment/Assignment_2/Assignment_2_Q_2/pipe.c:100-121 | piperead returns the next n bytes under way, or all there are, in order; it returns exactly if there are any or no writer is left, so that 0 for n > 0 means an empty pipe without writers, and fails exactly if it would sleep and is killed |
| `Pipe.PutMeans` | Assignment/Assignment_2/Assignment_2_Q_2/pipe.c:82-96 | what one turn of pipewrite appends is a stretch of its bytes, all of the rest unless the ring is full afterwards |
| `Pipe.TakeMeans` | Assignment/Assignment_2/Assignment_2_Q_2/pipe.c:113-118 | what piperead takes are the next bytes of the input, as many as asked for or as there are |
| `Pipe.WrapIndex` | Assignment/Assignment_2/Assignment_2_Q_2/pipe.c:94 | the index into the ring survives the wrap-around of the counters |
| `Pipe.StepKeeps` | Assignment/Assignment_2/Assignment_2_Q_2/pipe.c:59-121 | every step keeps: bytes come out in the order they went in, at most 512 under way, sleepers have reason |
| `Pipe.Run` | Assignment/Assignment_2/Assignment_2_Q_2/pipe.c:59-121 | the same holds after every run of any readers and writers |
| `Pipe.WritersInOrder` | Assignment/Assignment_2/Assignment_2_Q_2/pipe.c:78-97 | in every run the input is made of the writers' bytes, those of each writer being what it was asked to write, in its order and all but what it is still writing |
| `Pipe.ReadReturns` | Assignment/Assignment_2/Assignment_2_Q_2/pipe.c:100-121 | in every reachable state a read that returns takes the next bytes, n or all there are, and none for n > 0 only at the end of the input |
| `Pipe.SleepersHaveReason` | Assignment/Assignment_2/Assignment_2_Q_2/pipe.c:59-121 | in every run without kill a sleeping reader faces an empty pipe with a writer and a sleeping writer a full one with a reader |
| `SleepLock.StepKeeps` | Assignment/cs236-xv6-mac/proc.c:424-481 | every step of acquiresleep, releasesleep, sleep and wakeup, between which others may run, keeps the invariant |
| `SleepLock.MutualExclusion` | Assignment/cs236-xv6-mac/sleeplock.c:22-42 | at most one process is inside a sleep-lock in every interleaving |
| `SleepLock.NoLostWakeup` | Assignment/cs236-xv6-mac/proc.c:424-481 | whenever the spinlock is free and a process sleeps on the lock or is about to, some process is inside and will wake it |
| `SleepLock.HoldingSleep` | Assignment/cs236-xv6-mac/sleeplock.c:44-53 | holdingsleep tells a process exactly whether it is inside |
| `SleepLock.NoDeadlock` | Assignment/cs236-xv6-mac/sleeplock.c:22-42 | when nobody can move, everybody is outside, inside or asleep, and asleep only while somebody is inside |
| `Processes.Table.Allocproc` | Assignment/cs236-xv6-mac/proc.c:77-97 | the first unused slot becomes an embryo with the next pid |
| `Processes.Table.Wakeup1` | Assignment/cs236-xv6-mac/proc.c:464-471 | afterwards nobody sleeps on the channel; who did is runnable with everything else as before, and all others are as they were |
| `Processes.Table.Exit` | Assignment/cs236-xv6-mac/proc.c:252-274 | the parent is woken, children go to init, init is woken exactly if one of them is a zombie, and the process is a zombie |
| `Processes.ExitedMeans` | Assignment/cs236-xv6-mac/proc.c:252-274 | slot by slot: the process is a zombie, its children are init's, its parent asleep in wait and, for a zombie child, init asleep in wait are runnable, and nothing else changes |
| `Processes.Table.WaitScan` | Assignment/cs236-xv6-mac/proc.c:286-314 | the first zombie child is reaped and its slot unused, without pid, parent, stack or mark; or there is none, and the pass tells whether there are children |
| `Processes.Table.Kill` | Assignment/cs236-xv6-mac/proc.c:486-504 | the first slot with the pid is marked and, if it was asleep, runnable; all others are as they were; false exactly if no slot has the pid |
| `LifeCycle.ExitKeeps` | Assignment/cs236-xv6-mac/proc.c:231-276 | exit keeps the invariant |
| `LifeCycle.WaitKeeps` | Assignment/cs236-xv6-mac/proc.c:279-319 | a pass of wait keeps the invariant, whether it reaps, gives up or sleeps |
| `LifeCycle.ReapKeeps` | Assignment/cs236-xv6-mac/proc.c:296-307 | the reaped process is on no processor's stack when that stack is freed |
| `LifeCycle.StepKeeps` | Assignment/cs236-xv6-mac/proc.c:77-504 | every step of fork, exit, wait, sleep, yield, kill, wakeup and the schedulers keeps the invariant |
| `LifeCycle.StateMoves` | Assignment/cs236-xv6-mac/proc.c:77-504 | the state diagram: in every step every slot makes exactly the move that the event makes it, and its parent, mark, pid and channel change only as the event says |
| `LifeCycle.NobodyLeftAsleep` | Assignment/cs236-xv6-mac/proc.c:464-481 | after wakeup nobody sleeps on its channel, who did is runnable, and everybody else is as before |
| `LifeCycle.NoSlotLost` | Assignment/cs236-xv6-mac/proc.c:181-226 | in every run each embryo is being made by some process in fork, so that no slot is lost half made |
| `LifeCycle.PidsDistinct` | Assignment/cs236-xv6-mac/proc.c:77-97 | live processes have different pids in every run |
| `LifeCycle.ParentsAlive` | Assignment/cs236-xv6-mac/proc.c:231-319 | every started process but init has a living parent, and no parent sleeps in wait while a child is a zombie |
| `LifeCycle.ReapedOnce` | Assignment/cs236-xv6-mac/proc.c:279-319 | no exit is reaped twice, and no live process has been |
| `LifeCycle.StackInUse` | Assignment/cs236-xv6-mac/proc.c:329-389 | the stack a processor runs on is not freed and is no other processor's |
| `Scheduler.Cpu.Scan` | Assignment/Assignment_2/cs236-xv6-mac-a2/proc.c:709-740 | the scan picks the eligible process with the highest dynamic priority, then the lowest pid, or none exactly if none is above the sentinel; eligible processes seen for the first time get the time of their first run, and nothing else changes |
| `Scheduler.Cpu.Pick` | Assignment/Assignment_2/cs236-xv6-mac-a2/proc.c:746-759 | the chosen process is marked as running from now, with a context switch counted unless it ran last |
| `Scheduler.Cpu.TakeBack` | Assignment/Assignment_2/cs236-xv6-mac-a2/proc.c:761-770 | it is charged the ticks it ran and killed if its time is used up |
| `Scheduler.Cpu.EndSleep` | Assignment/Assignment_2/cs236-xv6-mac-a2/proc.c:456-463 | the ticks since sleep began are charged as sleeping time when the process is dispatched again |
| `Scheduler.AlwaysCounted` | Assignment/Assignment_2/cs236-xv6-mac-a2/proc.c:704-770 | in every history of creation, dispatches, ticks, sleeps and wakeups the counters hold what the history says: the ticks run and the ticks asleep that are charged |
| `Scheduler.PriorityMeans` | Assignment/Assignment_2/cs236-xv6-mac-a2/proc.c:725-727 | the scanned priority is INIT_PRIORITY - ALPHA times the ticks run + BETA times the ticks waited, sleep that is not charged yet counted as waiting |
| `Scheduler.MeasuresWaitingIff` | Assignment/Assignment_2/cs236-xv6-mac-a2/proc.c:725-727 | it is that of the ticks in which the process was runnable and did not run if and only if BETA is 0 or the ticks between wakeups and their dispatches equal the sleep not yet charged; so it is for a process that has not slept |
| `Scheduler.SleepCountsAsWaiting` | Assignment/Assignment_2/cs236-xv6-mac-a2/proc.c:456-463 | it is not so in general: a process that ran, slept two ticks and has just been woken is given two ticks of waiting |
| `Scheduler.ChoiceMeans` | Assignment/Assignment_2/cs236-xv6-mac-a2/proc.c:725-740 | in those counts of the history the chosen process has the highest priority, and of equals the lowest pid |
| `Scheduler.TurnIsDispatch` | Assignment/Assignment_2/cs236-xv6-mac-a2/proc.c:704-770 | a turn of one tick is a dispatch of the best process |
| `Scheduler.SpreadKept` | Assignment/Assignment_2/cs236-xv6-mac-a2/proc.c:725-734 | a spread of priorities of at least ALPHA + BETA is kept by every dispatch |
| `Scheduler.AheadDown` | Assignment/Assignment_2/cs236-xv6-mac-a2/proc.c:725-734 | every dispatch of another process uses up one of the finitely many that can come before a given one |
| `Scheduler.Fair` | Assignment/Assignment_2/cs236-xv6-mac-a2/proc.c:704-770 | with N eligible processes and D = max(initial spread, ALPHA + BETA), each of them is among any (N-1)(D/(ALPHA+BETA)+1)+1 dispatches in a row |
| `KernelMemory.NamedOnce` | Assignment/Assignment_2/Assignment_2_Q_2/vm.c:35-80 | a user page or a table is named at one place of one directory only, is no directory and is not on the free list |
| `KernelMemory.OnceFree` | Assignment/Assignment_2/Assignment_2_Q_2/kalloc.c:59-95 | a page is on the free list once if nobody owns it, and not at all otherwise |
| `KernelMemory.TakeKeeps` | Assignment/Assignment_2/Assignment_2_Q_2/kalloc.c:82-95 | the first word of the first free page points to the next one, and taking the page keeps the list linked and the ownership of every page |
| `KernelMemory.GiveKeeps` | Assignment/Assignment_2/Assignment_2_Q_2/kalloc.c:59-77 | giving back a page that nobody names keeps the ownership of every page and changes no page-table entry |
| `KernelMemory.TableKeeps` | Assignment/Assignment_2/Assignment_2_Q_2/vm.c:43-53 | a zeroed page as a new table keeps the ownership of every page and changes no entry that can be looked up |
| `KernelMemory.EntryAfterSet` | Assignment/Assignment_2/Assignment_2_Q_2/vm.c:73 | writing one entry changes that entry and no other entry of any directory |
| `KernelMemory.MmuIs` | Assignment/Assignment_2/Assignment_2_Q_2/vm.c:35-55 | what the processor finds through directory and table, both words' rights taken together, is what the table entry alone says: no directory entry withholds a right |
| `KernelMemory.SetKeeps` | Assignment/Assignment_2/Assignment_2_Q_2/vm.c:73 | entries filled with a taken page, or cleared, keep the ownership of every page |
| `UserMemory.BytesOfPage` | Assignment/Assignment_2/Assignment_2_Q_2/vm.c:380 | the bytes read from a page are the bytes written to it |
| `UserMemory.ByteOrder` | Assignment/Assignment_2/Assignment_2_Q_2/vm.c:380 | the bytes of a page are those of its words, lowest first |
| `UserMemory.UserByteIs` | Assignment/Assignment_2/Assignment_2_Q_2/vm.c:35-55 | a user address shows the byte at its offset in the page that the processor finds |
| `UserMemory.UserInIs` | Assignment/Assignment_2/Assignment_2_Q_2/vm.c:348-360 | the processor lets the user in at an address exactly if the entry that uva2ka looks at is present and the user's |
| `UserMemory.PokeWrites` | Assignment/Assignment_2/Assignment_2_Q_2/vm.c:378-380 | bytes moved into a user page are seen at their addresses by its directory, and nobody sees any other change |
| `UserMemory.WrittenStep` | Assignment/Assignment_2/Assignment_2_Q_2/vm.c:371-384 | two writes one after the other are one write of the bytes together |
| `KernelMemory.BootGood` | Assignment/Assignment_2/Assignment_2_Q_2/kalloc.c:31-44 | memory without page tables is in order |
| `AddressSpace.Vm.Freerange` | Assignment/Assignment_2/Assignment_2_Q_2/kalloc.c:46-53 | exactly the whole pages between the two addresses become free |
| `AddressSpace.Vm.Kalloc` | Assignment/Assignment_2/Assignment_2_Q_2/kalloc.c:82-95 | the page that kmem.freelist points to, and the pointer in its first word becomes the new head; no page changes; 0 exactly if no page is free |
| `AddressSpace.Vm.Kfree` | Assignment/Assignment_2/Assignment_2_Q_2/kalloc.c:59-77 | the page is filled with junk, its first word points to the old head of the list, and it is the new head |
| `AddressSpace.Vm.Walkpgdir` | Assignment/Assignment_2/Assignment_2_Q_2/vm.c:35-55 | the table for a page, made if asked for, with a directory entry that allows the user to read and write; a null pointer exactly if there is none and it is not asked for or no page is free |
| `Mapping.WalkKeeps` | Assignment/Assignment_2/Assignment_2_Q_2/vm.c:43-53 | a new table leaves every entry and every page in use as it was |
| `Mapping.WalkPaid` | Assignment/Assignment_2/Assignment_2_Q_2/vm.c:43-53 | a walk costs one page exactly if the table is missing, and fails exactly if then none is free |
| `AddressSpace.Vm.MapPage` | Assignment/Assignment_2/Assignment_2_Q_2/vm.c:68-75 | one entry is set; the panic remap is met exactly if it was present, and failure means that no page is left for the table |
| `AddressSpace.Vm.Mappages` | Assignment/Assignment_2/Assignment_2_Q_2/vm.c:60-80 | every page of the range is mapped to the next physical page with the given permissions and nothing else changes, also for a range that ends at 2^32; or there are too few pages for the missing tables |
| `Mapping.AddressesNext` | Assignment/Assignment_2/Assignment_2_Q_2/vm.c:74-77 | the addresses do not wrap around before the last page is reached |
| `AddressSpace.Vm.Allocuvm` | Assignment/Assignment_2/Assignment_2_Q_2/vm.c:221-249 | succeeds exactly if there are enough free pages for the new pages and the missing tables; then the processor lets the user read and write at every new address, the new pages are zeroed, and nothing else changes; or all is rolled back but for tables |
| `Resizing.ExtendedMmu` | Assignment/Assignment_2/Assignment_2_Q_2/vm.c:221-249 | through both levels of the page table every new address is a page of zeros that the user may read and write |
| `Resizing.RollBack` | Assignment/Assignment_2/Assignment_2_Q_2/vm.c:237-245 | after the rollback every page in use is as it was, and every page that was free is free or a table of the directory |
| `Resizing.GrowThenShrink` | Assignment/Assignment_2/Assignment_2_Q_2/vm.c:221-279 | allocuvm followed by deallocuvm to the old size gives all the new pages back |
| `Mapping.OthersEntries` | Assignment/Assignment_2/Assignment_2_Q_2/vm.c:221-249 | growing one directory changes no entry of another |
| `AddressSpace.Vm.Deallocuvm` | Assignment/Assignment_2/Assignment_2_Q_2/vm.c:255-279 | exactly the pages between the two sizes are unmapped and given back, and missing tables are passed over |
| `Resizing.ShrunkStep` | Assignment/Assignment_2/Assignment_2_Q_2/vm.c:264-277 | unmapping the next page extends the unmapped range by that page and changes nothing else |
| `AddressSpace.Vm.Freevm` | Assignment/Assignment_2/Assignment_2_Q_2/vm.c:283-298 | every page of the directory, its tables and itself are given back, each once, and nothing else changes |
| `Duplication.FreedDone` | Assignment/Assignment_2/Assignment_2_Q_2/vm.c:283-298 | with the user pages, the tables and the directory given back, exactly what belonged to it is free |
| `Duplication.RegionPages` | Assignment/Assignment_2/Assignment_2_Q_2/vm.c:105-115 | the kernel's regions lie side by side, fit the address space, and together are the kernel's map |
| `AddressSpace.Vm.Setupkvm` | Assignment/Assignment_2/Assignment_2_Q_2/vm.c:118-136 | a new directory that maps the kernel's regions and nothing else, beside all old pages untouched; 0 exactly if too few pages are free, and then every page is as it was |
| `Duplication.SetUpMmu` | Assignment/Assignment_2/Assignment_2_Q_2/vm.c:105-136 | through both levels the kernel's text is read-only, its data, all memory up to PHYSTOP and the devices are writable, the gap is unmapped, and the user is let in nowhere |
| `AddressSpace.Vm.Copyuvm` | Assignment/Assignment_2/Assignment_2_Q_2/vm.c:315-345 | a new directory with the same bytes under the same flags on pages of its own, where the processor allows the child what it allows the parent, all old pages untouched; 0 exactly if too few pages are free, and then every page is as it was |
| `Duplication.CopyMmu` | Assignment/Assignment_2/Assignment_2_Q_2/vm.c:315-345 | through both levels every copied address is in the child another page with the same bytes and the same rights |
| `Duplication.CopyStep` | Assignment/Assignment_2/Assignment_2_Q_2/vm.c:325-339 | copying the next page extends what has been copied by that page |
| `Duplication.CopyApart` | Assignment/Assignment_2/Assignment_2_Q_2/vm.c:315-345 | no page of the copy was in use before, so parent and child share none, and what was in use keeps its owner and contents |
| `Duplication.BesideFreed` | Assignment/Assignment_2/Assignment_2_Q_2/vm.c:283-345 | freeing a new directory, finished or not, gives back exactly what it took: all pages are as before it was made |
| `Duplication.RestoredFree` | Assignment/Assignment_2/Assignment_2_Q_2/kalloc.c:59-95 | after a failed setupkvm or copyuvm the same pages are free as before |
| `Duplication.PagesNeededMeans` | Assignment/Assignment_2/Assignment_2_Q_2/vm.c:105-136 | a directory with k user pages takes 65 + k pages and a table for every 1024 of the k |
| `AddressSpace.Vm.Uva2ka` | Assignment/Assignment_2/Assignment_2_Q_2/vm.c:348-360 | the page behind a user address if it is present and accessible to the user, and a null pointer otherwise |
| `AddressSpace.Vm.Copyout` | Assignment/Assignment_2/Assignment_2_Q_2/vm.c:365-386 | for any range, succeeds exactly if the processor would let the user in at every address of it; the bytes up to the first page where it would not are there for the process to see, and nobody sees any other change, the kernel's pages included |
| `Duplication.SetUpClosed` | Assignment/Assignment_2/Assignment_2_Q_2/vm.c:105-115 | at no address of the kernel's regions does the processor let the user in |

## Left out

- Sleep-lock waiting in the buffer cache and inode locking: operations on one buffer or inode are taken as not overlapping; `SleepLock.dfy` proves the lock itself.
- One disk device: device numbers other than the root device, `T_DEV` inodes and the `devsw` table are not modelled.
- The check of `n` in `log_write` before the log's spinlock is taken (`log.c:218-222`) is one step with the rest of the call.
- Log.Log.Commit: requires that no other process holds a buffer while the commit runs; with a full log of 29 blocks one buffer held elsewhere is enough to make bget panic.
- Log.Log.CopyBlock: the same requirement.
- Log.Log.WriteLog: the same requirement.
- Log.Log.InstallTrans: the same requirement.
- Log.Log.EndOp: the same requirement when the last operation leaves.
- The device numbers in an inode: `iupdate` leaves their bytes as they are.
- Inode caching apart from reference counts: `ip->valid` is a parameter of `iput`, and every in-memory inode is read at the start.
- References that `namex` takes and drops on the inodes it passes: `Links.dfy` models references, `Paths.dfy` only reads.
- Link counts work on directories as maps; that dirlink and dirlookup are such maps is proved in `Directory.dfy` and `Paths.dfy`. Operations inside an already removed directory are excluded.
- What `iput` does when a transaction would log more than the reservation (truncating a large file) is not bounded.
- After a panic nothing is said about the state, except that the panics for a free block being freed, for a short `filewrite` and for `nlink < 1` are shown to be unreachable.
- `LogWrite` in `Log.dfy` requires a block outside the log region, as every caller passes.
- Crash safety is stated for one commit of a file write, in any state; runs that mix commits of several files are covered by composing it.
- The shell's tree nodes are values: `parseexec` collects its redirections and wraps the command at the end, instead of wrapping a node that is still being filled.
- `runcmd` and everything that executes a parsed command.
- `grep()`'s line buffer, which drops a partial line when a read has no newline.
- The kill path of `pipewrite`: runs of `Pipe.dfy` kill nobody, because that path returns without waking readers.
- Processes: signals, `sys_custom_fork`, suspended processes, swapping and the clean-up of swap slots; `fork`'s copying of files and memory is one step that succeeds or fails.
- Scheduler fairness is for one processor, a fixed set of runnable processes and one tick charged for each dispatch; overflow of ticks and pids is not modelled.
- `mkfs` with files to copy, booting, traps, device drivers other than the memory disk, and the test programs.
- AddressSpace.Vm.Copyout: requires the page tables that `uva2ka` looks into, which it would otherwise reach through a null pointer, and that no kernel page is the user's (`Duplication.SetUpClosed`).
- AddressSpace.Vm.Uva2ka: requires the page table, for the same reason.
- AddressSpace.Vm.Mappages: user ranges are one page, as all callers pass; ranges with a page that is mapped already, on which it panics, are excluded, while `AddressSpace.Vm.MapPage` says exactly when that panic is met.
- `inituvm`, `loaduvm`, `clearpteu` and the switching of page tables.
- AddressSpace.Vm.Kfree: the panic for an address that is not a page of allocatable memory is excluded, because only pages that are held or owned are given back.
- AddressSpace.Vm.Copyuvm: the panics for pages that are not mapped are excluded by requiring every page below the size to be present; sizes are at most KERNBASE.
- AddressSpace.Vm.Deallocuvm: sizes above KERNBASE, which no caller passes, are excluded.
