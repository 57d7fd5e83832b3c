# xv6 on mist32: a verified model of its core

This project models six parts of the xv6 port to mist32 and proves what each of them is for:

1. **Storage.** A redo log over a write-back, least-recently-used buffer cache, and above it the block
   allocator, the inode block map and files as byte sequences. Each disk write is one atomic step and
   a crash may fall between any two, also during recovery.
2. **The user-level allocator**: a circular, address-ordered free list with coalescing.
3. **The shell parser**: a recursive-descent parser over a moving cursor that NUL-terminates words in
   its input.
4. **Address spaces**: two-level page tables over a list of free frames.
5. **Processes**: `fork`, `exit`, `wait`, `kill`, the scheduler, `sleep`/`wakeup` and pipes.
6. **The regular expression matcher** of `grep`.

Code that the system writes as expressions and recursion is modelled by functions. Code that changes
things step by step is modelled by classes and methods with loops, each proved against functions and
predicates on values; protocols are step machines. Panics and error returns are outcomes. Where a
method has a result "the source panics", its contract says when.

## How the parts fit

| file | contents |
|---|---|
| `Common.dfy`, `Blocks.dfy` | shared definitions; blocks as bytes and big-endian words |
| `LogProtocol.dfy` | the log as a step machine with crashes; crash atomicity |
| `BufferCache.dfy` | `bio.c` and the disk step of `ide.c` |
| `Log.dfy` | `log.c` in place, running the protocol's steps through the cache; how clients read and update blocks |
| `Transactions.dfy` | a whole transaction on the log: it cannot overflow or lack a buffer |
| `FsFormat.dfy`, `FsImage.dfy`, `FileBytes.dfy` | the disk format; the file system invariant; byte sequences |
| `FileSystem.dfy` | `fs.c` and `filewrite`, on the contents readers see, recording what they log |
| `CrashSafety.dfy` | the two together: operations, crashes and remounts; a recovered disk is a consistent file system |
| `Storage.dfy` | file operations run as transactions on the log, and reboots |
| `UserHeap.dfy` | `umalloc.c` |
| `ShellSyntax.dfy`, `Shell.dfy`, `ShellRoundTrip.dfy` | the grammar as functions; the parser as it runs; printing and parsing back |
| `PageTables.dfy`, `KernelMap.dfy`, `VirtualMemory.dfy` | frames and tables as values; the kernel half; `vm.c` and `kalloc.c` in place |
| `SleepWakeup.dfy`, `Procs.dfy`, `Scheduler.dfy`, `Pipes.dfy` | `sleep`/`wakeup`; the process table; runs under the scheduler; pipes |
| `Grep.dfy` | the matcher |

`FileSystem.dfy` works on the logical contents of each block and records what it hands to `log_write`.
`Storage.dfy` joins it to the log. `Storage.Running` says that the log is valid with no transaction open,
that exactly the operations done so far are committed, and that the file system works on the image they
lead to. `Storage.WriteFile` (`filewrite`, chunk by chunk from `begin_trans` to `commit_trans`) and
`Storage.Truncate` keep it, `Storage.ReadFile` reads under it, and `Storage.Reboot` establishes it again
after a crash at any point of any run. Between transactions, what processes read through the cache is
that image (`Storage.ReadyReads`); inside one, it is the committed transactions plus the open one's
writes (`RedoLog.Log.ReadBlock`). What recovery brings back is `CrashSafety.CrashConsistent`.

Facts about the code that these proofs bring out:

- `balloc` may hand out a block of the log: it stays below the log exactly when some block below the
  log is free (`FileSystem.FileSystem.Balloc`; `FileSystem.LogBlockHandedOut` is a run in which it takes
  the log's header). An operation leaves the log alone exactly if it takes no more blocks than are free
  below it, and how many it takes is told by the sizes (`CrashSafety.LogApartIff`, `CrashSafety.TakenAre`);
  crash consistency is proved for all runs of such operations.
- `malloc` of 2^32-7 bytes or more returns a block with no room, because rounding up wraps
  (`UserHeap.EnoughBytes`); a request of 2 GB or more reaches `sbrk` as another number
  (`UserHeap.SbrkCarries`); `UserHeap.OversizeRequests` gives one of each.
- `allocuvm` ignores the result of `mappages`. A frame is lost exactly when one frame is left at a page
  whose page table is missing; if that page is the last, success is reported and the page is not there,
  otherwise the call fails (`VirtualMemory.Vm.AllocUvm`; `VirtualMemory.TornRun` is such a run). `copyuvm`
  loses a frame in the same case (`VirtualMemory.CopyLoses`). Nothing else changes.
- A `setupkvm` that runs out of frames loses all that were free (`VirtualMemory.Vm.SetupKvm`,
  `VirtualMemory.SetupFails`).
- `growproc` leaves the size matching the pages exactly unless the size becomes zero, which is reported
  as a failure after the pages are freed, or growing leaves such a hole (`VirtualMemory.Vm.GrowProc`).
- A killed writer that has stored bytes and then finds the pipe full leaves sleeping readers asleep;
  in every other case sleepers are where they should be (`Pipes.KernelPipe.Write`).
- `>>` in the shell gives the same command as `>` (`ShellSyntax.ParseRedirs`).

## Model

| member | source | states |
|---|---|---|
| `Blocks.WordRoundTrip` | mkfs.c:48-58 | a 32-bit word stored in a block is read back, and no other word of the block changes |
| `Blocks.WordBytes` | mkfs.c:48-58 | a word is four bytes, the most significant first |
| `LogProtocol.HeaderRoundTrip` | log.c:85-113 | the header written by write_head is the one read_head reads, whatever the block held before |
| `LogProtocol.HeaderWords` | log.c:84-96 | the header of a log is its first word and as many sector numbers after it |
| `LogProtocol.StoreSectorsWords` | log.c:98-113 | write_head stores the count in word 0 and sector i in word i + 1 |
| `LogProtocol.StepKeepsInv` | log.c:69-181 | every step of the log, and a crash at any point, keeps: recovery gives the committed state, the slots hold the open writes, no home sector has been written before the commit header |
| `LogProtocol.RunKeepsInv` | log.c:69-181 | the same over every run |
| `LogProtocol.CrashAtomicity` | log.c:69-149 | for every run with any number of crashes, also inside recovery, the recovered home sectors are those of the transactions whose header write reached the disk, in order, and of no other |
| `BufferCache.UnlinkIsWithout` | bio.c:127-128 | relinking the neighbours takes exactly one buffer out of the ring |
| `BufferCache.PushIsFront` | bio.c:129-132 | the four pointer writes put a buffer right after the head |
| `BufferCache.FetchKeepsView` | bio.c:61-105 | handing out a buffer, recycled or not, changes no sector's logical contents, and the buffer holds its sector's |
| `BufferCache.RecycleKeepsView` | bio.c:82-91 | recycling a clean buffer changes no sector's logical contents |
| `BufferCache.Cache.constructor` | bio.c:38-56 | after binit the list is one ring through the head and all buffers, and none caches a sector |
| `BufferCache.Cache.Bget` | bio.c:61-93 | the sector's own buffer, else the least recently released clean one; at most one buffer per sector; panics only if no buffer is clean |
| `BufferCache.Cache.Iderw` | ide.c:42-66 | a dirty buffer is written and made clean, an invalid one read; the exact conditions of each panic |
| `BufferCache.Cache.Bread` | bio.c:96-105 | returns the latest logged or written contents of the sector and changes no sector's contents; when it panics |
| `BufferCache.Cache.Bwrite` | bio.c:107-115 | exactly this sector of the disk becomes the buffer's data |
| `BufferCache.Cache.Brelse` | bio.c:119-138 | the buffer moves to the front and the order of the others stays; the ring stays one ring |
| `RedoLog.Log.LogWrite` | log.c:159-181 | runs the protocol's log-write step: the block goes to the sector after the log's header that its place in the list names, absorption keeps the sectors distinct, the buffer is pinned dirty and no home sector reads differently; when it panics |
| `RedoLog.LogWriteKeepsPinned` | log.c:169-180 | log_write keeps: the dirty buffers are exactly the logged sectors, and each that is not in use equals its log slot |
| `RedoLog.FetchKeepsPinned` | log.c:155 | a client's bread of a home sector keeps it too, and the buffer it gets equals its slot if the sector is logged |
| `RedoLog.StoreKeepsPinned` | log.c:156 | so does a store into a buffer in use |
| `RedoLog.ReleaseKeepsPinned` | log.c:158 | and so does brelse of a buffer that holds what was logged |
| `RedoLog.Log.ReadBlock` | bio.c:96-138 | bread and brelse at any point of any run: gives the committed transactions plus the open one's writes and changes nothing; sleeps exactly if a process holds the buffer, panics exactly if the sector has none and no buffer is clean |
| `RedoLog.Log.Update` | log.c:151-158 | bread, store, log_write, brelse: the sector's contents become the new ones, no other home sector's contents change, one log-write step is made and the invariant is kept; when it sleeps and panics |
| `RedoLog.Log.WriteHeader` | log.c:98-113 | the header sector, and no other, changes, to what read_head reads back as the in-memory header |
| `RedoLog.Log.InstallTrans` | log.c:68-82 | runs one install step per slot, in order, up to a slot whose home buffer a process holds, and then the sectors from there on are still dirty |
| `RedoLog.Log.BeginTrans` | log.c:124-133 | opens a transaction with an empty header; sleeps exactly if one is open |
| `RedoLog.Log.CommitTrans` | log.c:135-149 | runs header write, installs and erase in that order, and leaves no dirty buffer; sleeps only where a process holds a logged buffer, panics only if no buffer is clean, and the disk is recoverable even then |
| `RedoLog.Log.ResumeCommit` | log.c:74-82 | a commit that slept goes on where it slept once the buffer is released, installs the rest and erases the log; it sleeps again only if a logged buffer is in use, and cannot panic |
| `RedoLog.Log.ReleaseBeside` | bio.c:119-138 | a process that releases its buffer meanwhile does not disturb it |
| `RedoLog.Log.ReadHeader` | log.c:84-96 | the in-memory header becomes the one on disk |
| `RedoLog.Log.RecoverFromLog` | log.c:115-122 | runs the recovery steps, ends with an empty log and no buffer in use, and cannot panic |
| `RedoLog.ReadersSeeOpen` | log.c:159-181 | under that invariant a sector not in use reads as the committed transactions plus the open one's writes |
| `FsFormat.BitRoundTrip` | fs.c:61-67 | setting a bitmap bit changes that bit and no other |
| `FsFormat.BitIs` | fs.c:61-67 | bit i of a bitmap block is bit i % 8, counted from the least significant, of byte i / 8 |
| `FsFormat.FirstBitsAre` | mkfs.c:233-247 | in the bitmap mkfs writes exactly the first `used` bits are set |
| `FsFormat.MkfsBitmap` | mkfs.c:233-247 | its loop computes that bitmap |
| `FsFormat.InodeRoundTrip` | fs.h:26-40 | storing an inode in its block is read back and leaves the block's other inodes alone |
| `FsFormat.RecordBytes` | fs.h:26-34 | which bytes of its 64-byte record each field of an inode is |
| `FsFormat.Addresses` | fs.h:36-46 | inode i is at byte 64 i of the inode blocks, bit b in byte b / 8 of the bitmap blocks |
| `FsImage.GrowAddrOk` | fs.c:362-372 | giving an inode a free block as its next direct block, or as its indirect block, keeps ownership, bitmap and no-hole invariants and extends only that file, by zeros |
| `FsImage.GrowEntryOk` | fs.c:373-378 | the same for an indirect entry |
| `FsImage.TruncatedOk` | fs.c:391-419 | dropping all blocks of one inode keeps the invariants |
| `FileBytes.OverlaidIsSplice` | fs.c:479-490 | overlaying a range and cutting at the new size is replacing or extending that slice |
| `FileBytes.SpliceAt` | fs.c:479-490 | what that slice means byte by byte |
| `FileBytes.RootHasNoHole` | mkfs.c:148-153 | the root directory's blocks cover the size mkfs rounds up to iff its real size is not a multiple of the block size |
| `FileBytes.FullRootHasHole` | mkfs.c:148-153 | a root directory of 32 entries is such a case |
| `FileSystem.FileSystem.FirstFree` | fs.c:61-74 | the lowest free block, or none if all are taken |
| `FileSystem.FileSystem.Balloc` | fs.c:52-76 | marks the lowest free block, zeroes and logs it; panics only on a full disk; below the log iff a block below the log is free |
| `FileSystem.MkfsLowest` | mkfs.c:233-247 | on the bitmap mkfs writes for n used blocks the lowest free block is n |
| `FileSystem.BallocAfterMkfs` | fs.c:52-76 | balloc on such a disk returns block n |
| `FileSystem.LogBlockHandedOut` | fs.c:52-76 | a run on a consistent file system in which balloc hands out the log's header block |
| `FileSystem.FileSystem.Bfree` | fs.c:79-95 | clears exactly this bit; panics exactly if it was clear |
| `FileSystem.FileSystem.Iupdate` | fs.c:200-217 | exactly this inode on disk becomes the one in memory |
| `FileSystem.FileSystem.Bmap` | fs.c:356-384 | a mapped block is found without changing anything; the first unmapped one is allocated, zeroed and linked, keeping the invariants; at most the bitmap, the indirect block and the new block are logged |
| `FileSystem.ByteAddress` | fs.c:356-384 | byte k of a file is byte k % 512 of the block that its address k / 512, direct or indirect, names |
| `FileSystem.FileSystem.Writei` | fs.c:462-492 | refused exactly if out of range, and then nothing changes; otherwise exactly that slice of that file is replaced or extended, no other file changes, memory and disk agree on every inode, blocks are taken lowest first, and only sectors in use are logged; panics only on a full disk |
| `FileSystem.FileSystem.Readi` | fs.c:434-458 | returns the clipped slice of the file, refuses exactly out of range, and allocates and logs nothing although it calls bmap |
| `FileSystem.FileSystem.Itrunc` | fs.c:386-419 | the file becomes empty, no other changes, exactly its blocks are freed, only metadata is logged and bfree's panic cannot happen |
| `FileSystem.FileSystem.Filewrite` | file.c:116-155 | a prefix of the data is written, all of it unless writei refuses the next chunk; each chunk is a transaction of its own that takes one consistent image to the next |
| `FileSystem.ChunkFits` | file.c:126-137 | with one bitmap block a chunk of filewrite logs at most seven distinct sectors |
| `Transactions.NoOverflow` | log.c:164-165 | a transaction of at most seven sectors never meets "too big a transaction" |
| `Transactions.CleanLeft` | bio.c:80-92 | a buffer is clean whenever fewer than NBUF sectors are logged or held: with seven logged, even for a process that holds two, so a chunk of filewrite never meets "no buffers" |
| `Transactions.Transact` | log.c:124-181 | begin_trans, the updates of a transaction of at most seven home sectors, commit_trans, while other processes may hold buffers of other sectors: nothing sleeps or panics, and exactly that transaction is added to the committed ones |
| `CrashSafety.ApplyConcat` | log.c:135-149 | replaying transaction by transaction is replaying their writes in one piece |
| `CrashSafety.TakenAre` | fs.c:356-384 | an operation takes exactly as many blocks as the file's sizes before and after call for, with one for an indirect block |
| `CrashSafety.LogApartIff` | fs.c:52-76 | no file gets a log block iff the operation takes at most the blocks free below the log |
| `CrashSafety.LogStaysApart` | fs.c:52-76 | in particular if a block below the log is free afterwards |
| `CrashSafety.OperationsFit` | file.c:126-137 | what a chunk of filewrite or itrunc logs, with one bitmap block, is a transaction of at most seven sectors, none of them in the log |
| `CrashSafety.DidEffect` | fs.c:386-492 | an operation changes the files as its meaning says: a write that is not refused replaces or extends a slice, a truncation empties |
| `CrashSafety.LifeReplays` | fs.c:386-492 | after any sequence of operations, with crashes and remounts between them, the files are the replay of the operations |
| `CrashSafety.LifeApplies` | log.c:53-149 | and the home sectors are what their transactions make of the first mount's |
| `CrashSafety.LifeGoesOn` | file.c:116-155 | what filewrite does on a mounted disk that agrees with the last image outside the log continues such a sequence, if no chunk takes more blocks than are free below the log |
| `CrashSafety.AgreesOutsideLog` | log.c:53-66 | a disk that agrees with a consistent image outside the log holds the same consistent files |
| `CrashSafety.CrashConsistent` | log.c:53-149 | for every run of the log with crashes whose committed transactions are those of the first n operations, from a consistent first image: the recovered disk satisfies every file system invariant, and every file has exactly the bytes of the replay of those n operations |
| `CrashSafety.BlockOwnership` | fs.c:52-95 | a bitmap bit is set iff the block is metadata or some inode pointer leads to it, and no two pointers lead to one block |
| `CrashSafety.OwnCount` | fs.c:356-384 | files own as many blocks as their sizes call for |
| `Storage.Perform` | log.c:124-181 | an operation done on the mounted image becomes a transaction on the log, after which exactly one more operation is committed and its image is mounted |
| `Storage.ReadyReads` | bio.c:96-105 | between transactions every sector not in use reads as the image of the operations so far |
| `Storage.RunningReplays` | fs.c:386-492 | the files of a mounted file system are the replay of all operations, across any number of crashes |
| `Storage.Reboot` | log.c:53-66 | after a crash at any point of any run, recovery and mount give the image of exactly the committed operations |
| `Storage.WriteFile` | file.c:116-155 | filewrite with every chunk a transaction on the log: a prefix of the data is written, all of it unless a chunk is refused, and the mounted file system is again the committed one |
| `Storage.SizeAfterIs` | file.c:126-152 | how far it gets: to the end of the data or to the last whole chunk that fits the largest file |
| `Storage.Truncate` | fs.c:386-419 | itrunc as a transaction on the log |
| `Storage.ReadFile` | fs.c:434-458 | reading gives the clipped slice of what the operations made of the file |
| `UserHeap.OneRing` | umalloc.c:24-44 | following the pointers from base visits every free block once, in address order, no two touching, and returns to base |
| `UserHeap.NoOverlap` | umalloc.c:24-90 | no block, free or allocated, overlaps another |
| `UserHeap.SwallowOk` | umalloc.c:33-35 | merging with the free block above keeps the heap invariant |
| `UserHeap.JoinBelowOk` | umalloc.c:38-40 | merging with the free block below keeps it |
| `UserHeap.PutBackOk` | umalloc.c:36-42 | linking a block between its neighbours keeps it |
| `UserHeap.TakeAllOk` | umalloc.c:76-77 | unlinking an exact fit keeps it |
| `UserHeap.TakeTailOk` | umalloc.c:78-82 | splitting off the tail of a block keeps it |
| `UserHeap.FreedRejoins` | umalloc.c:33-43 | after free the block lies where it was, joined to a free neighbour exactly where they touch, every other block is as before, and freep is the block below |
| `UserHeap.TakenTookEnd` | umalloc.c:74-85 | malloc takes the high end of the first fitting block from freep on, and freep is the block before it |
| `UserHeap.Conservation` | umalloc.c:24-90 | free plus allocated units are the units obtained from sbrk |
| `UserHeap.Allocator.FindGap` | umalloc.c:29-32 | the search of free ends at the free block after which the block belongs |
| `UserHeap.Allocator.Free` | umalloc.c:24-44 | exactly this block is given back and joined to the free blocks it touches, freep is where the next search starts, and no allocated block's memory changes |
| `UserHeap.Allocator.Search` | umalloc.c:74-86 | one turn of the ring finds the first block after freep that fits, or there is none |
| `UserHeap.Allocator.MoreCore` | umalloc.c:46-61 | at least 4096 units are added to the free list, or sbrk refused and nothing changed |
| `UserHeap.Allocator.Malloc` | umalloc.c:63-90 | returns nothing exactly if no free block fits and sbrk refuses; otherwise the end of the next fit from freep on, before or after growing; a new block of the size asked for, disjoint from all others, whose memory stays as it was; overruns exactly if it must grow by 2 GB or more and sbrk does not refuse |
| `UserHeap.Allocator.Store` | umalloc.c:84 | a program that stores only into its own blocks cannot break the heap |
| `UserHeap.EnoughBytes` | umalloc.c:69 | the block holds the bytes asked for iff rounding up does not wrap |
| `UserHeap.SbrkCarries` | umalloc.c:52-54 | sbrk is asked for the units morecore uses iff the request is under 2 GB |
| `UserHeap.OversizeRequests` | umalloc.c:52-69 | a request that rounding up makes a single unit, and one that reaches sbrk as a negative number |
| `UserHeap.CallBehaves` | umalloc.c:24-90 | malloc, free and a store of the program each keep the heap invariant, add exactly what sbrk supplied, and leave all other blocks and their memory alone |
| `UserHeap.FreshHeap` | umalloc.c:70-73 | the heap as the first malloc sets it up satisfies the invariant and holds no memory |
| `UserHeap.RunConserves` | umalloc.c:24-90 | after any run of malloc, free and stores into the program's own memory the heap invariant holds, and free plus allocated units equal all that sbrk supplied |
| `UserHeap.MemoryIsKept` | umalloc.c:24-90 | in any run a unit of an allocated block keeps its contents until the program stores there or frees the block |
| `ShellSyntax.Lex` | sh.c:266-309 | a token advances the cursor, and a word is a maximal run of word characters |
| `ShellSyntax.ParseRedirs` | sh.c:375-398 | every file recorded is a word of the text and the cursor rests past the redirections |
| `ShellSyntax.ParseItems` | sh.c:416-447 | every argument recorded is a word of the text and there are at most nine |
| `ShellSyntax.ParseLine` | sh.c:345-360 | the mutually recursive grammar terminates on every text and what it accepts has only words of the text |
| `ShellSyntax.ItemsAfterRedirs` | sh.c:430-443 | reading redirections up to the next word, as the source does, is reading items one by one |
| `Shell.GetToken` | sh.c:266-309 | computes exactly the next token |
| `Shell.Peek` | sh.c:311-321 | skips space and tells whether the next character is one of those given |
| `Shell.ReadRedirs` | sh.c:375-398 | the loop computes what the grammar says |
| `Shell.ReadBlock` | sh.c:400-414 | the parenthesised block is what the grammar says, with its error |
| `Shell.ReadItems` | sh.c:427-446 | the argument loop computes what the grammar says, with its errors |
| `Shell.ReadPipe` | sh.c:362-373 | computes what the grammar says |
| `Shell.ReadLine` | sh.c:345-360 | computes what the grammar says |
| `Shell.Nulterminate` | sh.c:449-494 | exactly the characters at word ends become NUL |
| `Shell.WordsAreCStrings` | sh.c:449-494 | no NUL lands inside a word: each word, read as a C string, is its token |
| `Shell.ParseCmd` | sh.c:328-343 | accepts exactly what the grammar accepts; leaves each word of an accepted line as a C string, and a rejected line alone |
| `ShellRoundTrip.RoundTrip` | sh.c:263-447 | printing any tree of the grammar, with any white space before each token and at the end, and parsing gives the command it stands for |
| `ShellRoundTrip.TypedLine` | sh.c:263-309 | two words and a newline, as typed, are a command with two arguments |
| `ShellRoundTrip.FullRoundTrip` | sh.c:266-447 | every command with legal words and at most nine arguments parses back from its fully parenthesised print, whatever white space ends the line |
| `ShellRoundTrip.PlainRoundTrip` | sh.c:345-373 | it also parses back when printed with only the parentheses that precedence and right-nesting call for |
| `ShellRoundTrip.Reparse` | sh.c:266-447 | whatever the parser accepts is such a command, so printing it and parsing again loses nothing |
| `PageTables.KallocOk` | kalloc.c:82-95 | taking a frame keeps every frame either free once or in use |
| `PageTables.KfreeOk` | kalloc.c:59-77 | giving one back keeps it too |
| `PageTables.MapUserMaps` | vm.c:62-82 | entering a page changes that page of that address space and nothing else |
| `PageTables.UnmapOk` | vm.c:252-259 | taking a user page out and freeing its frame keeps tables and frames consistent |
| `PageTables.SkipTable` | vm.c:249-251 | where a table is missing no page of the space is left above, so the 4 MB skip passes over none, even from the middle of a table's range |
| `PageTables.RoomIff` | vm.c:217-230 | allocuvm finds a frame for everything iff the pages plus the missing page tables are at most the free frames |
| `PageTables.TornIff` | vm.c:217-230 | it loses the frame of its last page iff the free frames are exactly one more than the other pages and the tables missing for them, and the last page's table is missing too |
| `PageTables.TornWhere` | vm.c:217-230 | it loses a frame at all iff that is so for some page on the way |
| `PageTables.FreeTablesAre` | vm.c:274-279 | the loop of freevm frees exactly the directory's page tables |
| `PageTables.FreedAll` | vm.c:266-281 | pages, tables and directory together are all the frames of the address space |
| `KernelMap.EnterMore` | vm.c:62-82 | entering a kernel page adds it and costs a frame exactly if its table is missing |
| `KernelMap.KmapOk` | vm.c:107-117 | the pages of kmap lie in the kernel half and none is mapped twice, wherever the kernel's data begins, so mappages does not panic in setupkvm |
| `KernelMap.KmapEntries` | vm.c:107-117 | they take 40 page tables |
| `KernelMap.KernelPte` | vm.c:62-117 | the frame and the flags of every page of the directory setupkvm makes, and which pages have none |
| `VirtualMemory.Vm.constructor` | kalloc.c:45-52 | freerange puts every frame on the list once |
| `VirtualMemory.Vm.Kalloc` | kalloc.c:82-95 | the frame at the head, or nothing exactly if the list is empty |
| `VirtualMemory.Vm.WalkPgdir` | vm.c:34-57 | the table for an address, made on demand without changing any mapping; fails exactly if not allowed to or out of frames |
| `VirtualMemory.Vm.MapPage` | vm.c:59-82 | enters the page, failing exactly if its table is missing and no frame is left |
| `VirtualMemory.Vm.SetupKvm` | vm.c:119-136 | a new address space with the kernel's pages and no user page, failing exactly if there are too few frames, and then every free frame is lost to a directory nobody frees; no remap panic |
| `VirtualMemory.Vm.SetupKernel` | vm.c:107-136 | with the kernel's own map it succeeds exactly if more than 40 frames are free, and gives that address space |
| `VirtualMemory.PagesAre` | vm.c:207-232 | the pages for a size are the fewest of 4096 bytes that hold it |
| `VirtualMemory.Vm.AllocUvm` | vm.c:207-232 | grows the user half from exactly the old pages to exactly the new, zeroed, at the cost of exactly the frames for pages and missing tables; or undoes everything; or loses one frame, and then succeeds with the last page missing or undoes the rest, each under its exact condition and with no other change |
| `VirtualMemory.TornRun` | vm.c:217-230 | a run of setupkvm and allocuvm that loses a frame, reports success and has no page |
| `VirtualMemory.SetupFails` | vm.c:119-136 | a run of setupkvm that fails and leaves no frame free |
| `VirtualMemory.CopyLoses` | vm.c:296-326 | a run of copyuvm that fails and loses a frame |
| `VirtualMemory.Vm.DeallocUvm` | vm.c:234-262 | the user half becomes exactly the pages of the smaller size and just the others' frames are freed |
| `VirtualMemory.Vm.FreeVm` | vm.c:264-281 | every user frame, page table and the directory is freed exactly once and no other address space changes |
| `VirtualMemory.Vm.CopyUvm` | vm.c:296-326 | the child has the same pages with the same flags and contents on frames of its own; or nothing changed; or just one frame is lost; or setupkvm failed, each under its exact condition |
| `VirtualMemory.Vm.GrowProc` | proc.c:99-117 | the size matches the pages afterwards iff the process did not shrink to zero and growing did not leave its last page out |
| `SleepWakeup.StepKeepsInv` | proc.c:336-391 | every step of sleep, wakeup, kill and the scheduler keeps what each process relies on |
| `SleepWakeup.NoLostWakeup` | proc.c:336-391 | for any number of processes, channels and locks: a process asleep while its condition is true is still owed a wakeup, or one is on its way to it |
| `SleepWakeup.QuietMeansNotReady` | proc.c:336-391 | once all wakeups are done only processes whose condition is false are asleep |
| `SleepWakeup.LockIsFreeWhileAsleep` | proc.c:351-354 | in every run a process between releasing and reacquiring its condition's lock in sleep does not hold it |
| `SleepWakeup.SleepReturnsLocked` | proc.c:364-368 | sleep returns holding exactly the condition's lock |
| `SleepWakeup.WokenBy` | proc.c:371-414 | only a wakeup of its channel that reaches its slot, or kill, ends a process's sleep |
| `SleepWakeup.ScanWakes` | proc.c:371-382 | an undisturbed wakeup1 wakes exactly the sleepers on its channel |
| `SleepWakeup.SleeperCanBeWoken` | proc.c:384-391 | whenever the locks are free a running process can make a sleeper's condition true and wake it |
| `SleepWakeup.SleeperCanReturn` | proc.c:336-391 | and the sleeper can then return from sleep with the lock and the condition true |
| `Procs.ExitedOk` | proc.c:180-195 | exit keeps: every started process but the first has a living parent, no one in wait has a zombie child, nonzero pids are distinct |
| `Procs.ReapOk` | proc.c:216-228 | reaping keeps it, and the pid never was returned before |
| `Procs.ProcTable.AllocProc` | proc.c:34-50 | the first unused slot becomes an embryo with a new pid, as one step of the table |
| `Procs.ProcTable.Fork` | proc.c:119-155 | a runnable child of the caller with a new pid, or failure exactly if no slot is free or memory is short |
| `Procs.ProcTable.Exit` | proc.c:157-198 | field by field: the process is a zombie, its children belong to init, and its parent and, if it inherits a zombie, init are woken; panics exactly for init |
| `Procs.ProcTable.Wait` | proc.c:200-241 | reaps the first zombie child exactly if there is one; otherwise fails without children or when killed, and else sleeps |
| `Procs.ProcTable.Wakeup1` | proc.c:371-382 | exactly the sleepers on the channel become runnable, and no other field of any slot changes |
| `Procs.ProcTable.Kill` | proc.c:393-414 | sets killed in the first slot with the pid, makes it runnable if asleep, and changes nothing else; fails exactly if there is none |
| `Procs.ProcTable.FindRunnable` | proc.c:262-264 | the next runnable slot from where the scan stands |
| `Procs.ProcTable.Dispatch` | proc.c:262-272 | the scheduler's step on a runnable slot keeps the process invariants |
| `Procs.ProcTable.Sleep` | proc.c:336-369 | the step of going to sleep keeps them |
| `Procs.ProcTable.Yield` | proc.c:305-312 | so does giving up the processor |
| `Scheduler.Boot` | proc.c:74-97 | the table userinit leaves satisfies the process invariants with nothing running |
| `Scheduler.RunKeepsInv` | proc.c:122-414 | the process invariants hold in every state of every run, and only the current process runs |
| `Scheduler.RunPids` | proc.c:34-50 | a run uses up one pid for each allocproc, so nextpid stays an int exactly until 2^31 - 2 processes have been made |
| `Scheduler.ZombieStays` | proc.c:200-241 | a zombie stays one until its parent reaps it, which records its pid once |
| `Scheduler.RunnableStays` | proc.c:251-312 | only the scheduler takes a process out of RUNNABLE |
| `Scheduler.BoundedBypass` | proc.c:251-282 | a runnable process is passed over by at most NPROC-1 dispatches |
| `Pipes.BytesInside` | pipe.c:84-113 | the wrapped difference of the counters is the number of bytes in the pipe and stays within 0..512 |
| `Pipes.FullIs` | pipe.c:84 | the counters compare as full exactly if 512 bytes are stored and not delivered |
| `Pipes.EmptyIs` | pipe.c:105 | they compare as empty exactly if all stored bytes are delivered |
| `Pipes.PutOk` | pipe.c:92 | storing a byte into a pipe that is not full keeps the ring invariant, because 512 divides 2^32 |
| `Pipes.TakeOk` | pipe.c:115 | taking one out delivers the oldest stored byte |
| `Pipes.DrainedInOrder` | pipe.c:112-116 | what is delivered are the bytes stored longest ago, in order |
| `Pipes.NotBothAsleep` | pipe.c:58-120 | readers and writers are never both asleep |
| `Pipes.KilledWriterStrandsReader` | pipe.c:76-120 | a run of piperead and pipewrite in which a killed writer returns and leaves a reader asleep on a full pipe |
| `Pipes.KernelPipe.Write` | pipe.c:76-97 | stores a prefix of the data in order; how it ends; keeps sleepers right exactly unless, before the call, a reader sleeps, some but not all of the bytes fit and the writer is killed or has no reader |
| `Pipes.KernelPipe.Read` | pipe.c:99-120 | delivers the oldest bytes in order; how it ends; keeps sleepers right |
| `Pipes.KernelPipe.Close` | pipe.c:58-74 | closes one end, wakes the other side and keeps sleepers right |
| `Pipes.KernelPipe.Rouse` | proc.c:393-414 | kill takes a process out of its sleep on a pipe and keeps sleepers right |
| `Grep.ShowPatternOf` | grep.c:83-95 | reading an expression as a pattern loses nothing: printing the pattern gives the expression |
| `Grep.PatternOfShow` | grep.c:83-95 | a pattern is read back from its print exactly if no single character in it is followed by one for *, and none at its end is $ |
| `Grep.StarMeans` | grep.c:97-105 | as strings: c*re matches at the start iff some first characters are c and re matches after them |
| `Grep.StarMeansAnywhere` | grep.c:71-105 | the same for a match anywhere |
| `Grep.CharMeans` | grep.c:92-93 | a character, unless a star follows it or it is a final $, matches itself, and a dot anything |
| `Grep.EndMeans` | grep.c:85-91 | the empty expression matches every text and a final $ just the empty one |
| `Grep.AnywhereMatches` | grep.c:71-81 | without a leading ^ a match may start anywhere |
| `Grep.OneMatches` | grep.c:92-93 | a pattern that starts with one character matches iff the text starts with one it fits and the rest matches |
| `Grep.StarMatches` | grep.c:98-105 | a pattern that starts with c* matches iff the text splits after some c's and the rest matches |
| `Grep.MatchHere` | grep.c:83-95 | true iff a prefix of the text, or all of it under a final $, is in the pattern's language |
| `Grep.MatchStar` | grep.c:97-105 | true iff the text splits so |
| `Grep.Match` | grep.c:71-81 | true iff the text matches somewhere, or at its start under ^ |

## Left out

- Kernel code around the core: interrupts and `pushcli`/`popcli`, traps, system call arguments, `exec`,
  console, device drivers beyond the effect of `iderw`, boot code. Locks are plain mutual exclusion.
- Inode cache, directories, path names, link counts, `ialloc`; device inodes in `readi` and `writei`.
- That every `log_write` of the kernel is inside a transaction: for filewrite and itrunc it is Storage.
- FileSystem.FileSystem.Filewrite: works on block contents and runs no transaction; Storage.WriteFile does.
- Storage.WriteFile: the blocks of a chunk are logged when its work on the contents is done, not in between;
  with more than one bitmap block a chunk may log more than seven sectors, which is not covered.
- Storage.Truncate: likewise.
- Sleeping inside `bget` and `begin_trans` is an outcome of the call, not a loop; sleeping in `commit_trans`
  is an outcome after which RedoLog.Log.ResumeCommit goes on.
- BufferCache.Cache.Bget: looking again after sleeping is a new call.
- BufferCache.Cache.Bread: likewise.
- RedoLog.Log.InstallTrans: likewise.
- Transactions.Transact: holds one buffer at a time, where `bmap` holds the indirect block during `balloc`;
  Transactions.CleanLeft covers that.
- Torn sector writes: a sector write reaches the disk whole or not at all.
- That mkfs makes an image with the file system invariant: the initial image is assumed to have it
  (for the root directory FileBytes.RootHasNoHole says when).
- User programs other than `sh.c`'s parser, `grep.c`'s matcher and `umalloc.c`; running the parsed
  commands; reading input.
- Fairness: that an owed wakeup is eventually done, and that a runnable process is eventually run.
- Easy operations of the modelled files that would add nothing: `stati`, `readsb`, `inituvm`, `loaduvm`,
  `clearpteu`, `uva2ka`, `copyout`, `pipealloc`'s file handling.
- UserHeap.Allocator.Malloc: what follows an overrun, where sbrk was asked for another number of bytes than
  morecore goes on to use, is not modelled.
- Shell.ReadItems: command nodes are values, built when the command is complete, so sharing of a node
  while it is being built is not modelled; nor is running out of memory for nodes.
- VirtualMemory.Vm.Kalloc: frames are numbered, so kfree's alignment check is not modelled, and the
  free list is a sequence, not links stored in the free pages.
- Procs.ProcTable.AllocProc: pids are unbounded; what happens when `nextpid` overflows is not modelled
  (Scheduler.RunPids says when it does).
- Procs.ProcTable.Fork: copying of memory and open files is not part of it.
- Pipes.KernelPipe.Write: sleep and wakeup are atomic here; that they may be treated so is SleepWakeup.
- Pipes.KernelPipe.Read: likewise.
