# A verified model of an ARMv8 teaching kernel

This project models the algorithmic cores of the kernel in Dafny and proves what they keep over
every run.

- **Write-ahead log and block cache.** `LogProtocol` is the cache and its log as a state machine:
  one action per critical section, per block transferred and per change a client makes, with any
  number of threads and a crash between any two actions. `LogProofs` shows that every run refines
  an atomic disk; `LogTheorems` draws the consequences, and `CacheRuns` follows the list of cached blocks
  and the queue of a block's lock through every run. `BlockCache.Bcache` is the code itself, with its
  loops, each of whose runs is a run of the state machine.
- **Red-black tree.** `RbModel` has the trees, the places inside them and one turn of each repair
  loop as values; `RbMemory.RbTree` is the code itself, over a memory of nodes with parent links. Its
  contracts hold for a memory of just the tree's nodes and the one to be inserted, so nothing
  else is read or written.
- **Inode layer.** `InodeModel` and `InodeWorld` say what blocks, addresses and bits mean;
  `InodeLayer.Inodes` has the operations. `LogBudget` is what an operation may still log, and
  `InodeCost` tells from the state an operation starts in which blocks it has to. `DirModel`,
  `Directories` and `Paths` put directories and path names on top, and `Mkfs` is the image all of it
  starts from. The blocks are those a client of the cache sees; that the cache shows them
  whatever it evicts is what the first part proves.
- **Page tables and slabs.** `Mmu` has the address macros on 64-bit words, `PageTables` the four-level
  tables, `SlabModel` and `SlabAllocator` the allocator of small objects.
- **Processes.** `Semaphores`, `ProcessTree` (exit, reparenting, wait), `SchedModel` and `Scheduler`.
- **Shell and pipes.** `Shell` has the parser as functions, a printer, and the proof that parsing
  undoes printing. `ShellGrammar` says, without a parser, which tokens a text spells and which commands
  a list of tokens stands for. `ShellParser` is the parser with its moving cursor. `Pipes` is the ring
  buffer and its two semaphores.

Each critical section is one atomic step. Device access, clocks and killed flags are parameters.
Several predicates are stated under a quantifier over `Unfold`, `Look` or `Weigh`, which are always
true: they only delay when the prover opens them. `Common` holds what several modules share.

## What the code does not do

- `end_op` is documented to return when the operation's blocks are on disk
  (`src/fs/cache.h:83-85`). A waiter may be woken by an earlier commit (`src/fs/cache.c:251-262`).
  `LogTheorems.WaiterMayReturnEarly` is such a run; `LogTheorems.DurableIffHeaderWritten` says of each
  block exactly when the promise is kept, whatever happens to the others, and
  `LogTheorems.CommitterIsDurable` that it always is for the caller that commits. A waiter may also
  miss the signal of its own commit and sleep on: `LogTheorems.WaiterMayOversleep` is such a run, and
  `LogTheorems.WokenIffPosted` says exactly when a sleeper is awake again.
- A `sync` without a context writes the home block at once, and reads of large files do so with the
  table of addresses (`src/fs/inode.c:248`). `LogTheorems.DirectSyncTears` is a run in which this
  leaves one of two blocks that an operation changed new and the other old.
  `LogTheorems.DirectSync` says exactly when it is harmless, `LogTheorems.DirectSyncIsSafe` gives
  flags a caller can look at first.
- An operation may log ten blocks, and `filewrite` makes one operation of any write
  (`src/fs/file.c:127-134`). `InodeLayer.Inodes.Write` says exactly which writes the log can take;
  `InodeLayer.Inodes.LargeWritePanics` that more than 4096 bytes to an empty file are never among them.
- `traverse_queue` compares 64-bit times as `int` and marks an empty search with -1.
  `SchedModel.WrongChoice` is a queue on which the entry it follows is not a least one, and
  `SchedModel.MarkedChoice` one on which it is not even least as an `int`; `SchedModel.ChosenOk`
  says when it is, and exactly when for times below 2^32 - 1. The time charged for a turn is an `int`
  too: `Scheduler.ElapsedIs` says that it is the time passed exactly if that is less than 2^31.
- `exit` gives a child that is the root process of a container to itself (`src/kernel/proc.c:57-60`).
  `ProcessTree.LeaveContainerBehind` is such a run: the child is cut off from the tree of processes.
  `ProcessTree.ExitKeepsTree` says that exit keeps the tree in one piece exactly if there is no such
  child. The counting of exited children is not disturbed, since such a process never exits.

## Model

| member | source | states |
|---|---|---|
| LogProtocol.HeaderRoundTrip | src/fs/cache.c:44-52 | a log header written to its block is read back unchanged |
| LogProtocol.HeaderLayout | src/fs/defines.h:73-76 | on disk the count is in the first eight bytes and entry `i` in the eight from `8 + 8 * i` on, lowest byte first |
| LogProtocol.SlotIsFirst | src/fs/cache.c:193-197 | the search of the header stops at the first entry for a block |
| LogProofs.EvictKeeps | src/fs/cache.c:128-138 | evicting the last block of the list, when it is neither pinned nor held, changes nothing a client can see or a crash would leave |
| LogProofs.HitKeeps | src/fs/cache.c:91-112 | locking a cached block, or queueing for it, keeps the invariant and shows its contents |
| LogProofs.MissKeeps | src/fs/cache.c:115-126 | adding and reading a block that is not cached keeps the invariant |
| LogProofs.BeginKeeps | src/fs/cache.c:158-181 | a reservation keeps `real_use` equal to logged blocks plus unused budget, within the log |
| LogProofs.SyncKeeps | src/fs/cache.c:189-210 | logging a block keeps header entries distinct and in bounds and the accounting exact |
| LogProofs.DirectKeeps | src/fs/cache.c:186-188 | a `sync` without a context keeps the invariant, shows clients what they saw, and makes that block durable and no other |
| LogProofs.EndKeeps | src/fs/cache.c:214-223 | ending an operation gives back exactly its unused budget |
| LogProofs.LogCopyKeeps | src/fs/cache.c:225-232 | copying a block to the log changes nothing durable and stays inside the log area |
| LogProofs.WriteHeaderKeeps | src/fs/cache.c:234 | the header write is the commit point: what a crash leaves becomes what clients see |
| LogProofs.InstallCopyKeeps | src/fs/cache.c:237-245 | copying a logged block home changes nothing a crash would leave |
| LogProofs.ClearHeaderKeeps | src/fs/cache.c:247-248 | with all logged blocks home, emptying the header changes nothing a crash would leave |
| LogProofs.BootKeeps | src/fs/cache.c:267-293 | a restart at any point leaves a state that satisfies the invariant |
| LogProofs.StepKeepsList | src/fs/cache.c:86-142 | no block number is ever cached twice, and the list holds exactly the cached blocks |
| LogProofs.StepRefines | src/fs/cache.c:86-293 | every action of every thread keeps the invariant and does to visible and durable contents what an atomic disk does |
| LogProofs.RunRefines | src/fs/cache.c:86-293 | every run, crashes and interrupted recoveries included, refines the atomic disk |
| LogTheorems.FreshIsOk | src/fs/cache.c:267-293 | a disk with an empty log starts in the invariant, with clients seeing the disk |
| LogTheorems.CommitIsAtomic | src/fs/cache.c:225-291 | after a commit cut short anywhere and recovery rerun any number of times, each home block is new exactly if the header write or a direct write of it reached the disk, else old; without direct writes all are new or all old |
| LogTheorems.HomeBlocksAreDurable | src/fs/cache.c:237-248 | outside the install loop the home blocks themselves hold the committed contents |
| LogTheorems.CommitterIsDurable | src/fs/cache.c:220-258 | when the commit an `end_op` runs is over, all that was visible when it began is on disk |
| LogTheorems.DurableIsLastHeader | src/fs/cache.c:225-248 | in every run, what a crash would leave in a block is what clients saw in it at the last header write, or the last direct write of it |
| LogTheorems.WaiterMayReturnEarly | src/fs/cache.c:251-262 | a run without crashes in which an `end_op` returns with its change not durable |
| LogTheorems.DurableIffHeaderWritten | src/fs/cache.c:251-262 | a block not changed since is durable when `end_op` returns exactly if a header or the block itself was written, or there was nothing to write; other blocks may change meanwhile |
| LogTheorems.DirectSync | src/fs/cache.c:186-188 | after a direct write a crash leaves what it would have left, or what clients see, exactly if the block was durable already or no other block waits to be |
| LogTheorems.DirectSyncIsSafe | src/fs/cache.c:186-188 | that is so if the block is neither pinned nor changed, or no other block is |
| LogTheorems.CleanIffNotLogged | src/fs/cache.c:192-207 | outside a commit the pinned blocks are those the header names |
| LogTheorems.DirectSyncTears | src/fs/inode.c:235-250 | a run in which one operation changes two blocks, a reader syncs one of them without a context, and a crash leaves one new and the other old |
| LogTheorems.WokenIffPosted | src/fs/cache.c:256-262 | over every run in which it does not fall asleep again, a sleeping waiter is awake at the end exactly if a committer has signalled or power has failed |
| LogTheorems.WaiterMayOversleep | src/fs/cache.c:251-262 | a run in which a waiter begins to sleep after the signal of its own commit, and sleeps on with everything durable and nobody left to wake it |
| LogTheorems.LogSpaceAccounted | src/fs/cache.c:158-253 | after every run `real_use` is, outside a commit, logged blocks plus unused budgets and never exceeds the log; header entries are different home blocks with copies inside the log area |
| LogTheorems.CacheIsTransparent | src/fs/cache.c:86-245 | after every run an acquire shows what a cache that never evicts would; a block neither pinned nor being changed equals the disk; only such a block, held by nobody, can be evicted |
| LogTheorems.SyncAlwaysFits | src/fs/cache.c:193-207 | an operation with budget left always finds room in the header and the log |
| LogTheorems.EndNeverUnderflows | src/fs/cache.c:216-218 | `end_op` never drives its unsigned counters below zero |
| CacheRuns.ListIsByUse | src/fs/cache.c:86-142 | after every run from an empty cache the list is in the order of last use, latest first, where a use is an acquire |
| CacheRuns.EvictsLeastRecent | src/fs/cache.c:128-138 | the block evicted is, of all that are cached, the one whose last use is the longest ago |
| CacheRuns.FirstComeFirstServed | src/fs/cache.c:91-155 | over every run those who got a block's lock, followed by those who still wait, are in order those who asked for it |
| BlockCache.Bcache.constructor | src/fs/cache.c:267-293 | recovery leaves in every home block what the last committed group left, wherever a crash cut the commit or an earlier recovery short |
| BlockCache.Bcache.Search | src/fs/cache.c:91-113 | the search of the list finds a block exactly if it is cached |
| BlockCache.Bcache.Acquire | src/fs/cache.c:86-142 | the contents returned are those the atomic disk holds, evictions or not; the block is first in the list, the others follow in the order they had, less the last if it was free to go and the list too long; no other block changes |
| BlockCache.Bcache.LeastRecentlyUsed | src/fs/cache.c:86-142 | since boot the list orders exactly the cached blocks by their last use |
| BlockCache.Bcache.EvictIfFull | src/fs/cache.c:129-138 | over the threshold the last block goes if it is free to go, and nothing else ever does |
| BlockCache.Bcache.Release | src/fs/cache.c:145-155 | the block passes to its longest waiter, or is free |
| BlockCache.Bcache.TryBeginOp | src/fs/cache.c:160-180 | the operation starts exactly if no commit runs and ten more blocks fit the log and the header; it then has a budget of ten, counted in `real_use` |
| BlockCache.Bcache.Change | src/fs/cache.h:69-85 | a change to a locked block is visible and not durable |
| BlockCache.Bcache.FindSlot | src/fs/cache.c:193-197 | the loop finds the first entry for the block, or the end |
| BlockCache.Bcache.Sync | src/fs/cache.c:184-211 | in an operation the block is pinned and logged once, for one unit of budget if it was not logged, panicking exactly if it was not and none is left; outside one it goes home at once |
| BlockCache.Bcache.LogAll | src/fs/cache.c:225-232 | the copy loop fills the log with the header's blocks |
| BlockCache.Bcache.InstallAll | src/fs/cache.c:237-248 | the install loop, of a commit and of recovery, ends with the log empty |
| BlockCache.Bcache.Commit | src/fs/cache.c:225-248 | a commit makes durable exactly what clients see |
| BlockCache.Bcache.EndOp | src/fs/cache.c:214-264 | the last operation returns with every visible block on disk and the accounting reset; another goes to sleep with nothing else changed |
| RbModel.PlugRedBlack | src/common/rbtree.c:40-109 | a sound subtree in a sound place makes a red-black tree |
| RbModel.PlaceRedBlack | src/common/rbtree.c:40-246 | every place in a red-black tree is sound |
| RbModel.InsertTurnOk | src/common/rbtree.c:40-109 | one turn of the insert repair leaves at most one red-red edge, higher up, or none |
| RbModel.InsertTurnInorder | src/common/rbtree.c:40-109 | no turn of the insert repair changes the order of nodes |
| RbModel.EraseTurnOk | src/common/rbtree.c:161-246 | one turn of the erase repair mends the missing black node or moves it up |
| RbModel.EraseTurnInorder | src/common/rbtree.c:161-246 | no turn of the erase repair changes the order of nodes |
| RbModel.UnlinkOk | src/common/rbtree.c:110-160 | unlinking leaves a red-black tree, or one whose only fault is a subtree one black node short |
| RbModel.UnlinkInorder | src/common/rbtree.c:110-160 | unlinking removes that node and keeps the others in order |
| RbModel.DescendOk | src/common/rbtree.c:251-267 | the descent stops at a place of the tree it started from |
| RbModel.DescendFinds | src/common/rbtree.c:277-288 | the descent finds an equal element exactly when the tree holds one |
| RbModel.InsertOrdered | src/common/rbtree.c:247-270 | the place found lies between the smaller and the greater elements |
| RbModel.Balanced | src/common/rbtree.c:277-288 | two to the height is at most the square of the number of nodes plus one |
| RbMemory.RbTree.constructor | src/common/rbtree.h:10-12 | a root without nodes |
| RbMemory.RbTree.InsertFix | src/common/rbtree.c:40-109 | the loop terminates with a red-black tree of the same nodes in order, links and parents right |
| RbMemory.RbTree.Insert | src/common/rbtree.c:247-270 | -1 exactly if an equal node is there, the tree as it was; else the node is added in its place and all invariants hold |
| RbMemory.RbTree.TakeOut | src/common/rbtree.c:110-160 | the relinking for no, one or two children takes out exactly the node |
| RbMemory.RbTree.EraseFix | src/common/rbtree.c:161-246 | the loop terminates with a red-black tree of the same nodes in order |
| RbMemory.RbTree.Erase | src/common/rbtree.c:271-276 | the node leaves; all others stay in order in a red-black tree with consistent parent links |
| RbMemory.RbTree.Lookup | src/common/rbtree.c:277-288 | an equal node exactly if there is one, in at most twice the logarithm of the size plus one steps |
| RbMemory.RbTree.First | src/common/rbtree.c:289-296 | the least node, or null exactly if there is none |
| Bytes.GetPut | src/fs/inode.c:29-32 | a word stored in a block is read back and no other word changes |
| Bitmap.PutBitOk | src/fs/cache.c:302-306 | setting or clearing a bit of a bitmap block changes no other bit |
| Bitmap.BitLayout | src/fs/cache.c:302-306 | bit `j` of a bitmap block is the bit of weight two to the `j % 8` in byte `j / 8` |
| InodeModel.EntryRoundTrip | src/fs/defines.h:50-60 | an inode entry stored in its 64 bytes is read back unchanged |
| InodeModel.EntryLayout | src/fs/defines.h:51-60 | type, device numbers and links are the first four two-byte words, then size, direct addresses and table as four-byte words, lowest byte first |
| InodeModel.EntryPlace | src/fs/inode.c:19-27 | an inode's 64 bytes are entry `i % 8` of block `i / 8` of the inode area, and storing it changes no other byte |
| InodeModel.TableLayout | src/fs/defines.h:62-65 | address `k` of a table is in the four bytes from `4 * k` on, lowest byte first |
| InodeModel.PutEntryOk | src/fs/inode.c:90-99 | storing one entry changes no other, not even in the same block |
| InodeModel.TakeBit | src/fs/cache.c:297-318 | marking a free block takes a block nobody owns and no other |
| InodeModel.DropBit | src/fs/cache.c:322-332 | the bit of a block in hand is set, and clearing it frees that block only |
| InodeWorld.GrowDirect | src/fs/inode.c:226-233 | a new direct block lengthens that file by its bytes, and no other file changes |
| InodeWorld.GrowIndirect | src/fs/inode.c:241-251 | a new block in the table lengthens that file by its bytes, and no other file changes |
| InodeWorld.GrowTable | src/fs/inode.c:237-251 | the first indirect block brings its table, and no other file changes |
| InodeWorld.WriteData | src/fs/inode.c:310-316 | writing part of a data block changes exactly those bytes of that file |
| InodeWorld.Detach | src/fs/inode.c:144-167 | a file that lets go of all its blocks leaves every other file as it was |
| InodeLayer.BitsConserved | src/fs/inode.c:144-251 | between operations a bit is set exactly if the block is reserved or reached from an inode, and none is both |
| InodeLayer.ReachedOnce | src/fs/inode.c:220-251 | no block is reached from two files, from two places of one, or both as table and as data |
| InodeLayer.ReadWritten | src/fs/inode.c:254-324 | reading a range just written gives what was written, and other bytes are the old ones |
| InodeLayer.ReadCount | src/fs/inode.c:261-266 | in wrapping 64-bit arithmetic a read is accepted exactly if it starts within the file and its end does not overflow, and is cut at the size |
| InodeLayer.WriteRange | src/fs/inode.c:294-301 | in wrapping arithmetic a write is accepted exactly if it starts within the file and ends within the largest file |
| LogBudget.SyncSpends | src/fs/cache.c:193-207 | the log protocol takes a block exactly if it fits the operation's budget, and then spends that |
| LogBudget.SpendTwice | src/fs/cache.c:193-207 | logging two sets of blocks in turn costs what logging them together costs |
| InodeCost.TouchedStep | src/fs/inode.c:308-318 | each turn of the write loop logs what one more block adds to what the loop logs |
| InodeCost.WriteCount | src/fs/inode.c:288-324 | how many distinct blocks a write logs: those it writes to, their table, the bitmap blocks of new ones, and the inode's |
| InodeLayer.Inodes.constructor | src/fs/inode.c:35-45 | mounting a sound image holds the root inode and nothing else |
| InodeLayer.Inodes.FindFree | src/fs/cache.c:299-316 | the two loops find the first clear bit below the swap area, or that there is none |
| InodeLayer.Inodes.AllocBlock | src/fs/cache.c:297-318 | the lowest free block is taken and zeroed, it and its bit logged; none exactly if none is free or the operation may not log the two; no file changes |
| InodeLayer.Inodes.FreeBlock | src/fs/cache.c:322-332 | a block in hand is freed; its bit is never found clear; it fails exactly if the operation may not log the bit |
| InodeLayer.Inodes.MapBlock | src/fs/inode.c:215-251 | the block of an offset; `modified` exactly if the file grew, by one zeroed block; failing exactly for want of blocks or of budget for the blocks it logs; outside an operation nothing is logged |
| InodeLayer.Inodes.Read | src/fs/inode.c:254-285 | the bytes of the flat file from the offset on; mapping never grows a file here |
| InodeLayer.Inodes.Write | src/fs/inode.c:288-324 | exactly the given range is replaced and the size extended, no other file changes; it fails exactly on a bad range, too few free blocks, or more blocks to log than the operation may |
| InodeLayer.Inodes.FreshWrite | src/fs/file.c:127-134 | as an operation of its own a write succeeds exactly if data blocks, table, bitmap blocks and inode block come to at most ten |
| InodeLayer.Inodes.LargeWritePanics | src/fs/file.c:127-134 | a write of more than 4096 bytes to an empty file always panics, one of fewer never on a disk with a single bitmap block |
| InodeLayer.Inodes.Sync | src/fs/inode.c:90-99 | the entry on disk becomes the one in memory; all other entries, files and bits are as they were; it fails exactly if the operation may not log the inode's block |
| InodeLayer.Inodes.Clear | src/fs/inode.c:144-167 | the file is empty, exactly its blocks are free again, each freed once; it fails exactly if the operation may not log their bits and the entry |
| InodeLayer.Inodes.Alloc | src/fs/inode.c:57-73 | the first unused inode becomes an empty file, all other entries on disk as they were; none exactly if all are in use or the operation may not log that inode's block |
| InodeLayer.Inodes.Get | src/fs/inode.c:108-141 | one more holder, with the entry from memory or else from disk; accepted exactly for allocated inodes |
| InodeLayer.Inodes.Share | src/fs/inode.c:170-176 | one more holder and nothing else |
| InodeLayer.Inodes.Put | src/fs/inode.c:179-209 | one holder fewer; the last one of a file without links frees its blocks and its inode, of any other leaves what the disk has; it fails exactly if a file has to be emptied and the operation may not log that |
| DirModel.InsertOk | src/fs/inode.c:353-382 | an entry put in a free slot adds its name to the map and keeps names unique |
| DirModel.RemoveOk | src/fs/inode.c:387-399 | an entry cleared takes its name, and only that, from the map |
| DirModel.MakeSlotOk | src/fs/inode.c:376-377 | a stored entry reads back its inode number and the first fourteen characters of its name |
| DirModel.SlotLayout | src/fs/defines.h:67-71 | an entry is two bytes of inode number and fourteen of name, filled up with zeros |
| Directories.SameName | src/fs/inode.c:341-346 | the bounded comparison says whether the name stands for the entry's key |
| Directories.Lookup | src/fs/inode.c:327-350 | the value of the map at the name's first fourteen characters, 0 exactly if there is none, and where |
| Directories.FirstUnused | src/fs/inode.c:365-374 | the first free slot, or the end |
| Directories.Insert | src/fs/inode.c:353-382 | refused exactly if the name is there; else the map gains it, in the first free slot or at the end, with the inode number cut to sixteen bits, exactly if a write there succeeds |
| Directories.EntryFits | src/fs/inode.c:364-379 | with budget for five blocks an entry fails only for want of a block or of size |
| Directories.Remove | src/fs/inode.c:387-399 | a used entry is cleared in its place, so that the map loses its name, and nothing else changes; it fails exactly for want of budget, and never with five blocks of it |
| Paths.NameThenRest | src/fs/inode.c:431-452 | a path that begins with a name is that name and then the rest |
| Paths.SkipElem | src/fs/inode.c:431-452 | the next component, cut to fourteen characters, and the position of the following one; none exactly if only slashes are left |
| Paths.WalkOne | src/fs/inode.c:470-509 | no names lead nowhere else; one leads where the directory says, or nowhere if it is not there or the start is no directory |
| Paths.WalkAppend | src/fs/inode.c:470-509 | walking one list of names and then another is walking both in one |
| Paths.WalkParent | src/fs/inode.c:484-488 | a walk to the parent leads to an inode exactly if there is a last name, the names before it lead there, and it is a directory |
| Paths.Descend | src/fs/inode.c:490-500 | one lookup, holding what was found instead of where it was found |
| Paths.Namex | src/fs/inode.c:460-509 | where the non-empty components lead by one lookup after the other, from the root or the working directory; with `parent` a directory and the last name; all reference counts as before but one more on the inode returned |
| Paths.InsertKeepsTree | src/fs/inode.c:353-382 | with every name that of an inode with links, `insert` keeps that so exactly if it holds of the inode it names |
| Paths.RemoveKeepsTree | src/fs/inode.c:387-399 | `remove` always keeps it |
| Paths.DestroyKeepsTree | src/fs/inode.c:179-209 | a `put` that destroys a file keeps it: without links the file has no name |
| Paths.LinksKeepTree | src/fs/inode.c:179-209 | a change of link count keeps it unless it leaves none and a name |
| Mkfs.BitsBelowOk | src/user/mkfs/main.c:254-266 | the loop over the used blocks sets their bits and no other |
| Mkfs.ImageIsSound | src/user/mkfs/main.c:81-194 | an image made without files is one the inode layer can mount: every bit, address and entry is accounted for |
| Mkfs.ImageTree | src/user/mkfs/main.c:134-145 | its root directory holds `.` and `..`, both naming itself, and every name is that of an inode with links |
| Mmu.PageIsParts | src/aarch64/mmu.h:68-71 | the four index fields are those of the page and make it up |
| Mmu.PartsDecide | src/aarch64/mmu.h:68-71 | two addresses have the same four indices exactly if they share a page |
| Mmu.PartsCover | src/aarch64/mmu.h:68-71 | any four indices are those of some page |
| Mmu.EntryRoundTrip | src/aarch64/mmu.h:62-63 | an entry gives back the address and flags it was made of |
| Mmu.KernelRoundTrip | src/aarch64/mmu.h:45-49 | kernel and physical addresses convert back and forth |
| PageTables.MappedReadsBack | src/kernel/pt.c:155-157 | the page and the flags stored in an entry are read back |
| PageTables.EverySlotIsAPage | src/kernel/pt.c:8-50 | every slot of every last-level table is the entry of some page |
| PageTables.AttachShape | src/kernel/pt.c:25-47 | linking a zeroed page as a new table keeps the tables a tree |
| PageTables.AttachMap | src/kernel/pt.c:25-47 | it maps nothing and unmaps nothing |
| PageTables.StoreLeaf | src/kernel/pt.c:155-157 | storing a last-level entry keeps the tree and sets that slot alone |
| PageTables.SlotIsPage | src/kernel/pt.c:49 | the slot of an address is that of its page and of no other |
| PageTables.PageTable.constructor | src/kernel/pt.c:52-60 | a new address space maps nothing |
| PageTables.PageTable.NextTable | src/kernel/pt.c:25-31 | the table below, made if asked for; absent exactly if it was and was not asked for |
| PageTables.PageTable.GetPte | src/kernel/pt.c:8-50 | the slot of the page, no mapping changed, one free page taken for each table that was missing; absent exactly if no last-level table is there and none was asked for |
| PageTables.PageTable.Vmmap | src/kernel/pt.c:155-157 | the plain map from pages to entries is updated at that page only |
| PageTables.PageTable.TraverseFree | src/kernel/pt.c:88-98 | every table from the given one down is freed, once each, and no other page |
| PageTables.PageTable.FreePgdir | src/kernel/pt.c:100-111 | exactly the tables are freed; no page they map is |
| SlabModel.SlotsApart | src/kernel/mem.c:92-94 | two slots of a page do not overlap |
| SlabModel.SlotInside | src/kernel/mem.c:92-94 | a slot lies in its page past the header, on a 16-byte boundary |
| SlabModel.TakeOk | src/kernel/mem.c:116-118 | handing out a free slot keeps every slot either free once or live |
| SlabModel.GiveOk | src/kernel/mem.c:147-149 | taking a live slot back keeps every slot either free once or live |
| SlabAllocator.ObjectPlaced | src/kernel/mem.c:85-160 | a live object is aligned, large enough, past its page's header and inside its page, which is not free; `used` counts the live objects |
| SlabAllocator.ObjectsApart | src/kernel/mem.c:85-160 | two live objects never share a byte |
| SlabAllocator.Log2 | src/kernel/mem.c:79-83 | the least order from 4 up whose size suffices |
| SlabAllocator.Cut | src/kernel/mem.c:92-94 | the loop lists every slot of the page once, the highest first |
| SlabAllocator.Slabs.constructor | src/kernel/mem.c:31-53 | all pages free, no object live |
| SlabAllocator.Slabs.AllocPage | src/kernel/mem.c:55-66 | the first free page, counted, with one reference |
| SlabAllocator.Slabs.FreePage | src/kernel/mem.c:68-77 | one reference fewer; the page is free again, and counted, exactly if that was the last |
| SlabAllocator.Slabs.SharePage | src/kernel/mem.c:187-189 | one reference more; a page is free exactly if it has none |
| SlabAllocator.Slabs.InitSlab | src/kernel/mem.c:85-107 | none exactly if no page is free; else the first free page is cut into slots, the highest handed out, the others listed in order, and the slab first on the right list |
| SlabAllocator.Slabs.FindInSlab | src/kernel/mem.c:109-131 | the first object of the first slab with room, now live; that slab moves to the full list exactly when it has none left |
| SlabAllocator.Slabs.Kalloc | src/kernel/mem.c:133-142 | none exactly if no slab of the least order that suffices has room and no page is free; with room in one, no page is taken and the first object of the first such slab is handed out; else the first free page is cut; the object was not live, and all other slabs and objects are as they were |
| SlabAllocator.Slabs.Kfree | src/kernel/mem.c:144-160 | the object is no longer live; its page is free exactly if no live object is left in it; else the object is the first of its slab, and the slab the first with room |
| SlabAllocator.Slabs.FreeThenAlloc | src/kernel/mem.c:133-160 | an object returned to a slab that stays is what the next request of that order gets |
| Semaphores.StepKeepsLaw | src/common/sem.c:13-101 | every step keeps the sleepers equal to the shortfall and every posted token accounted for |
| Semaphores.RunKeepsLaw | src/common/sem.c:13-101 | so does every run of waits, posts, alerts, get-alls and post-alls |
| Semaphores.OldestFirst | src/common/sem.c:92-101 | over every run, of two sleepers the newer is not served while the older still sleeps |
| Semaphores.LeftWithToken | src/common/sem.c:92-101 | nobody leaves the list without a token but by waking itself |
| Semaphores.Semaphore.constructor | src/common/sem.c:6-11 | a semaphore with its first tokens |
| Semaphores.Semaphore.BeginWait | src/common/sem.c:63-80 | a token is taken exactly if there is one, else the caller sleeps |
| Semaphores.Semaphore.EndWait | src/common/sem.c:81-90 | true exactly if a post served it; else the place in the list is given up and the value stays at most 0 |
| Semaphores.Semaphore.PostOne | src/common/sem.c:92-101 | the oldest sleeper is served, or the value grows; the list is never found empty |
| Semaphores.Semaphore.TryGet | src/common/sem.c:13-22 | a token is taken exactly if there is one |
| Semaphores.Semaphore.TakeAll | src/common/sem.c:29-40 | all tokens are taken and counted |
| Semaphores.Semaphore.WakeAll | src/common/sem.c:42-51 | the loop terminates, wakes every sleeper, returns their number and leaves the value at least 0 and otherwise as it was |
| Pipes.WrapIndex | src/fs/pipe.c:97 | the ring index of a counter is the same after it has wrapped |
| Pipes.Pipe.constructor | src/fs/pipe.c:28-35 | an empty pipe, open at both ends |
| Pipes.Pipe.NeverBothAsleep | src/fs/pipe.c:69-134 | the counters differ by the bytes held, at most 512, modulo 2^32; what was read is a prefix of what was written; not both sides sleep |
| Pipes.Pipe.Fill | src/fs/pipe.c:76-100 | the loop stores bytes in order until there is no more or no room |
| Pipes.Pipe.Write | src/fs/pipe.c:69-104 | bytes are appended in order; the writer sleeps only on a full pipe with the reader awake, and fails exactly if the read end is closed or it was killed |
| Pipes.Pipe.Drain | src/fs/pipe.c:124-129 | the oldest bytes, up to the number asked for |
| Pipes.Pipe.Read | src/fs/pipe.c:106-134 | the reader sleeps only on an empty open pipe; else it takes the oldest bytes and the writer is awake |
| Pipes.Pipe.Wake | src/fs/pipe.c:89-92 | a side served runs again and nothing else changes |
| Pipes.Pipe.Close | src/fs/pipe.c:50-67 | closing an end wakes whoever sleeps at the other; gone exactly if both are closed |
| ProcessTree.GivenAway | src/kernel/proc.c:52-65 | giving a child away, with a token if it has exited, keeps every other count |
| ProcessTree.DeadCounts | src/kernel/proc.c:83-87 | an exit adds one exited child and one token to the parent |
| ProcessTree.WaitStepOk | src/kernel/proc.c:100-107 | taking a token, sleeping for one and coming back keep every count |
| ProcessTree.FindsZombie | src/kernel/proc.c:109-119 | a process with a token has an exited child on its list |
| ProcessTree.ProcTable.constructor | src/kernel/proc.c:249-254 | the first process, alone |
| ProcessTree.ProcTable.Spawn | src/kernel/proc.c:24-34 | the child is first on its parent's list, has no children and no token, and nothing else changes; the tree stays in one piece and every count right; in its parent's container or one of its own, it keeps every process in its parent's or its own |
| ProcessTree.ProcTable.Reparent | src/kernel/proc.c:52-65 | every child goes to the root process of its container, in front of the children it has, the last one given foremost, with a token for each that has exited; nothing else changes |
| ProcessTree.ProcTable.Exit | src/kernel/proc.c:36-89 | the process is an exited child of a living parent; its children are given away, in that order; every living process has as many tokens as unreaped exited children; every process still reaches the first one exactly if no child is the root process of its own container |
| ProcessTree.ExitKeepsTree | src/kernel/proc.c:52-65 | giving the children to the root processes of their containers keeps the tree in one piece exactly if none is its own |
| ProcessTree.ContainerAbove | src/kernel/container.c:36-51 | the root process of a container is an ancestor of all others in it |
| ProcessTree.LeaveContainerBehind | src/kernel/container.c:36-51 | a run in which a process creates a container and exits: the container's root process is alive, its own parent, and cut off from the first process |
| ProcessTree.ProcTable.BeginWait | src/kernel/proc.c:91-107 | none exactly without children; else a token is held or the process sleeps |
| ProcessTree.ProcTable.EndWait | src/kernel/proc.c:104-107 | a token is held exactly if one was given |
| ProcessTree.ProcTable.Reap | src/kernel/proc.c:109-136 | the search always finds an exited child, the first on the list, which is removed for good; the tree stays in one piece |
| SchedModel.EnqueueOk | src/kernel/sched.c:87-107 | a process made runnable is queued once, in its own container |
| SchedModel.DequeueOk | src/kernel/sched.c:200-216 | a process taken off its queue is in none |
| SchedModel.SwitchOk | src/kernel/sched.c:237-257 | a switch keeps each running process current on exactly one processor |
| SchedModel.StateTellsPlace | src/kernel/sched.c:87-257 | a process is runnable exactly if it is in its own container's queue, once, and in no other; running exactly if current, on one processor only |
| SchedModel.LinkedIsReached | src/kernel/sched.c:142-162 | with every container linked, a queued process is found from the root |
| SchedModel.LeastNarrow | src/kernel/sched.c:167-187 | least as an `int` is least in truth when the times lie between the same multiples of 2^31, and, while they agree above 2^32, only then |
| SchedModel.SearchLeast | src/kernel/sched.c:167-187 | what the search finds is least as an `int`, unless the times lie on both sides of a multiple of 2^31 and one of them passes for -1 |
| SchedModel.SearchFirst | src/kernel/sched.c:167-187 | of several with the least `int` it finds the first, if none passes for -1 |
| SchedModel.ChosenOk | src/kernel/sched.c:164-187 | there is an entry to follow exactly if a process is queued below, whatever the times; it is a least one if they lie on one side, and while they agree above 2^32 and none passes for -1 only then |
| SchedModel.WrongChoice | src/kernel/sched.c:180-183 | two queued processes, with times on both sides of 2^31, of which the one followed is not a least one |
| SchedModel.MarkedChoice | src/kernel/sched.c:167-183 | three, one with a time that passes for -1, of which the one followed is not even least as an `int` |
| SchedModel.ChargeDone | src/kernel/sched.c:133-139 | a charge reaches exactly the process and the containers it is in, the root excepted |
| SchedModel.SwitchStarts | src/kernel/sched.c:218-228 | the start time of a process is that of the last switch to it |
| Scheduler.NotEmpty | src/kernel/sched.c:142-162 | true exactly if a process is queued in the container or below |
| Scheduler.Choose | src/kernel/sched.c:164-187 | the entry followed: none exactly if the container is empty; no entry that leads to a process is less as an `int`, unless one passes for -1; least occupied if times lie on one side, and below 2^32 - 1 exactly then |
| Scheduler.ElapsedIs | src/kernel/sched.c:133 | in wrapping 64-bit arithmetic cut to an `int`, the time charged is the time passed exactly if that is less than 2^31 |
| Scheduler.Traverse | src/kernel/sched.c:164-198 | the process the choices lead to, level by level, none exactly if none is queued; by a least occupied entry at each level if times lie on one side at each level of the path, and for times below 2^32 - 1 exactly then |
| Scheduler.Sched.constructor | src/kernel/sched.c:23-32 | every processor runs its idle process |
| Scheduler.Sched.Activate | src/kernel/sched.c:87-107 | true exactly for sleeping or new processes, deep sleepers only without an alert; then it is queued in its own container |
| Scheduler.Sched.ActivateGroup | src/kernel/sched.c:109-115 | the container is linked into its parent's queue |
| Scheduler.Sched.ChargeUp | src/kernel/sched.c:135-139 | the loop charges every container from the process's up to the root, the root excepted, modulo 2^64 |
| Scheduler.Sched.ChargeTime | src/kernel/sched.c:133-139 | exactly the time since the last switch to the process is charged: its own time is, modulo 2^64, the sum of its charges, and every nested container's the sum of all charges to processes in it |
| Scheduler.Sched.UpdateThis | src/kernel/sched.c:117-140 | the process takes its new state, is first in its container's queue exactly if that is runnable, and is charged unless it is idle |
| Scheduler.Sched.PickNext | src/kernel/sched.c:200-216 | without a panic idle exactly if no process is queued in the tree, else the one the choices lead to, which leaves its queue and no other does; on a least occupied path if times lie on one side along it, below 2^32 - 1 exactly then |
| Scheduler.Sched.Switch | src/kernel/sched.c:218-257 | a killed process that is not exiting stays; else the process that runs next is idle exactly if, with the old one offered, none is queued, and otherwise the one the choices lead to; the old one is charged its time and the start of the new one recorded; both state assertions hold, and every process is queued, running or neither, as its state says |
| Shell.ParseLine | src/user/sh/main.c:336-349 | defined on every text: the text left never grows, which with the grammar level bounds the recursion |
| Shell.RoundTrip | src/user/sh/main.c:266-424 | every command of plain words, at most nine to an argument list, printed with parentheses where needed, parses back to itself |
| Shell.NormalForm | src/user/sh/main.c:321-424 | whatever is accepted is such a command, and its printed form means the same |
| Shell.ExecOk | src/user/sh/main.c:395-424 | a printed operand parses back whatever may follow an operand |
| Shell.PipeOk | src/user/sh/main.c:351-360 | a printed pipe parses back before `)`, `&`, `;` or the end |
| Shell.LineOk | src/user/sh/main.c:336-349 | a printed line parses back before `)` or the end |
| ShellGrammar.Lexed | src/user/sh/main.c:266-304 | a text spells exactly one list of tokens, the one the tokenizer finds |
| ShellGrammar.AcceptsExactly | src/user/sh/main.c:321-424 | for every text the parser returns a command exactly if the tokens stand for that command by the grammar, and panics on all others |
| ShellGrammar.Unambiguous | src/user/sh/main.c:321-424 | no text stands for two commands |
| ShellGrammar.AppendIsOutput | src/user/sh/main.c:362-379 | `>>` and a word add a redirection of output, whatever comes before and after |
| ShellParser.GetToken | src/user/sh/main.c:266-304 | the loops find the next token and where the text goes on after it |
| ShellParser.Peek | src/user/sh/main.c:306-314 | whether the text goes on with one of the characters |
| ShellParser.ReadRedirs | src/user/sh/main.c:362-379 | the loop reads what the functions do, whose answer `ShellGrammar.AcceptsExactly` and `AppendIsOutput` fix: `<` redirects input, `>` and `>>` output |
| ShellParser.ReadExec | src/user/sh/main.c:395-424 | the loop over words and redirections reads what the grammar says |
| ShellParser.ReadBlock | src/user/sh/main.c:381-393 | a block in parentheses reads as the grammar says |
| ShellParser.ReadPipe | src/user/sh/main.c:351-360 | a pipe reads as the grammar says |
| ShellParser.ReadLine | src/user/sh/main.c:336-349 | a line with its ampersands and semicolons reads as the grammar says |
| ShellParser.ReadCmd | src/user/sh/main.c:321-334 | the cursor parser returns a command for which the tokens of the text stand, and panics exactly if there is none |

## Left out

- Drivers, boot code, traps, context switches, spinlock internals and memory ordering: hardware effects below the level of this model.
- The lock-free page stack's compare-and-swap loops: one push or pop is one step.
- `src/common/ipc.c`, `src/kernel/paging.c`, `src/kernel/console.c`, `src/kernel/exec.c`, `src/kernel/sysfile.c`, `src/fs/file.c`: not part of this model.
- Images made by `mkfs` with files in them. When the entries of the root directory fill its blocks exactly, `src/user/mkfs/main.c:185-190` gives it a size one block past its last, which the invariant excludes.
- BlockCache.Bcache.constructor: a header with more than 63 entries, or with entries that are not different home blocks, is excluded; the code writes none, and would read past its array.
- BlockCache.Bcache.EndOp: in the class the committing thread finds all blocks unlocked; waiting for another thread's lock is in the state machine only.
- BlockCache.Bcache.Acquire: in the class the block is not held by another thread; queueing for it is in the state machine only.
- RbMemory.RbTree.Erase: nodes are addresses in a map from addresses to cells, not objects, and the word that holds parent and colour is two fields.
- InodeLayer.Inodes.MapBlock: files have no holes, since a write starts within the file; mapping past the block after the last is excluded.
- InodeLayer.Inodes.constructor: the image is a sound one, as `Mkfs.ImageIsSound` shows of a new one and every operation keeps it.
- InodeLayer.Inodes.Read: devices, which read and write the console, are not modelled; the same holds for `InodeLayer.Inodes.Write`.
- Inode locks and interleaving of inode operations: each operation on an inode is one step.
- Directories.Lookup: entries are numbered 0, 1, 2, ... where the code gives byte offsets, sixteen times as large.
- Paths.Namex: every name is that of an inode with links; letting go of a directory without links, which would empty it on the way, is excluded.
- PageTables.PageTable.GetPte: asking for tables needs a free page for each that is missing; the code does not check for fewer. The same holds for `PageTables.PageTable.Vmmap`.
- PageTables.PageTable.FreePgdir: `free_sections`, which releases memory sections and their files, is not modelled.
- `copyout` and `copy_pgdir` in `src/kernel/pt.c`: copying through the map, no claim about it.
- SlabAllocator.Slabs.Kalloc: sizes above 2048, for which the code indexes past its array, are excluded.
- Semaphores.Semaphore.PostOne: the value is an unbounded integer, without the wrap-around of `int`.
- `src/kernel/pid.c` and the pid numbers returned by wait.
- Reaped processes in the scheduler: an exited process stays known to it.
- Scheduler.Choose: for times on both sides of a multiple of 2^32 a least entry may be followed by chance; the condition given is then sufficient, not necessary.
- `nulterminate` in `src/user/sh/main.c`: words are taken as strings when they are read.
- The shell's fixed pool of 10000 bytes for tree nodes, and running the commands.
