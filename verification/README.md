# FSTR, verified

FSTR is a small Unix-style file system: inodes, a free list kept inside the free
blocks, and a block map with direct, single, double and triple indirect numbers.
This project models its storage stack, from raw blocks up to byte files, directories
and file descriptors, and proves what the stack promises.

The volume is an array of blocks with the two counters of the superblock, which are
written to block 0 whenever the source commits them. Every
operation exists twice: as a function on values (`Alloc`, `SetBlockId`, `Pwrite`,
`Iput`, `DirAdd`, ...), about which the laws are proved, and, where the source changes
state step by step, as a method with the source's loops and writes (`Volume.DataBlockAlloc`,
`SetBlockIdOf`, `FileCalls.PwriteOn`, ...), proved to end in exactly the state the
function describes.

The main results:

* The free list on disk, with any pattern of used slots, is a stack of distinct data
  blocks (`FreeList`); every data block is free or held, never both, over every run, the
  counter in the superblock keeps its meaning, and block 0 always holds the superblock
  (`FreeRuns`, `Mkfs`).
* `set_block_id` updates one index of one file and nothing else, also when it allocates
  index blocks on the way or fails half-way (`BlockMapLaws`).
* A successful `pwrite` overlays bytes on the old contents, zero-filling a gap; when it
  succeeds, and how many free blocks are enough for that, is stated; `pread` returns the
  slice asked for exactly when a stated condition holds, for files of any size
  (`WriteLaws`, `ReadLaws`).
* Releasing a file frees its data blocks, each once, and loses exactly its index blocks
  (`ReleaseLaws`).
* The inode cache is coherent with the inode table and is an exact LRU cache
  (`CacheLaws`); directories are finite maps (`DirPages`, `DirLaws`); descriptor tables
  are maps with lowest-number allocation (`Descriptors`).
* From `mkfs` on, every run of calls, failing ones included, refines an ideal file system
  that maps inode numbers to byte sequences and directories, and every data block keeps
  exactly one owner. A failed write that was not refused as too big damages the file it is
  about; it has written exactly the bytes before the block it could not get. No other
  failing call changes anything a user sees, and no call changes a file it is not about
  (`SystemInv`, `SystemLaws`, `AbortLaws`, `SystemRuns`).
* So do runs of `open`, `close`, `pread` and `pwrite` mixed with those calls: they answer
  what an ideal machine of files and open descriptors answers (`CallRuns`), and leave the
  inodes they were last about in the cache (`CacheRuns`).
* `main` makes a new file system each time it starts: a restart keeps the files of a run if
  and only if they are the empty root directory alone (`SystemRuns.RestartReformats`).

## Reading the model

Sizes are symbolic constants whose types state what the sizes satisfy (`Geometry`).
`Quot`, `Rem` and `Times` are the usual operations, written recursively so that proofs use
only the laws they need (`Arithmetic.QuotIsDiv`, `Arithmetic.TimesIsMul`).

A `World` (`Ownership`) is a disk with the inodes of the live files, the free stack, and
the blocks that belong to nobody any more. A `Cell` is a place that can hold a block
number: a field of an inode or a slot of an index block. `Sound` says that every data
block has at most one owner; `Covered` that it has one. The set of lost blocks is ghost
bookkeeping: released files leave their index blocks there, and calls that fail half-way
what they had allocated.

`Tallied` compares two states of a volume: at most so many blocks left the free list,
`num_free_blocks` moved with the listed numbers (`Counts`), `num_free_inodes` is the same,
and block 0 still holds the superblock if it did. A view (`SystemInv.View`) shows a file
as `Damaged` once a write to it has failed, other than as too big; runs promise nothing
about such a file but its ownership of blocks.

What an uninitialised C variable holds is a parameter: `scratch` blocks, `stale` inodes
(`Leftovers` for those of `mkfs`). A run may make files on a full inode table if its flag
`tidy` is set, which requires that no slot behind the last inode is mistaken for a free one
(`CacheLaws.NoStraySlots`); runs do not change those slots.

## Model

| member | source | states |
|---|---|---|
| Volumes.HasNumberLeft | src/data_blocks_handler.c:25-37 | true exactly when some slot but the pointer holds a number |
| Volumes.IsFull | src/data_blocks_handler.c:39-51 | true exactly when every slot but the pointer holds a number |
| Volumes.FreeSpot | src/data_blocks_handler.c:53-66 | the lowest empty position, counted from 1 and behind the pointer; -1 exactly when the list is full |
| Volumes.TakeLast | src/data_blocks_handler.c:71-86 | the highest number of the list is returned and its slot cleared, nothing else changes; 0 exactly for a list without numbers |
| Volumes.Volume.ReadBlock | src/disk_emulator.c:44-50 | a read succeeds exactly below NUM_BLOCKS and delivers the block |
| Volumes.Volume.WriteBlock | src/disk_emulator.c:52-63 | a write succeeds exactly below NUM_BLOCKS, fills a short buffer up with zeros and changes no other block |
| Volumes.Volume.CommitSuperblock | src/common.c:18-20 | the in-place write of the superblock, a short buffer filled up with zeros, leaves in block 0 the image init_superblock reads back |
| Volumes.Volume.ReadSuperblock | src/common.c:7-16 | the in-place read of the superblock takes the counters from block 0 |
| Volumes.FitToBlock | src/disk_emulator.c:55-59 | long buffers are cut, short ones padded with zeros |
| Volumes.Volume.DataBlockAlloc | src/data_blocks_handler.c:88-144 | in-place allocation, the superblock committed, ends in the state, and returns the number, of the allocation the free-list laws are about |
| Volumes.Volume.DataBlockFree | src/data_blocks_handler.c:160-207 | in-place free, the superblock committed, ends in the state of the free that FreeFrame and the free-list laws are about |
| FreeList.LastUsed | src/data_blocks_handler.c:76-83 | finds the highest used slot |
| FreeList.FirstHole | src/data_blocks_handler.c:58-64 | finds the lowest empty slot |
| FreeList.InitReadsCommitted | src/common.c:7-20 | after a commit, init_superblock reads back the counters; the volume size, the list head and the first inode number are in their words, and the rest of block 0 is zero |
| FreeList.ReadsUnique | src/data_blocks_handler.c:88-144 | a chain on disk has at most one reading as a stack |
| FreeList.AllocPops | src/data_blocks_handler.c:88-144 | for any slot pattern: an allocation returns the top of the free stack, cleared, and changes only that block, the head and the superblock, which is committed; with an empty free set it fails and changes nothing; only a listed block decrements the counter |
| FreeList.FreeInserts | src/data_blocks_handler.c:160-207 | for any slot pattern: a free adds exactly the freed block; ids stay distinct and the chain acyclic |
| FreeList.FreeFrame | src/data_blocks_handler.c:160-207 | a free writes the head, the freed block and the superblock, which is committed; the freed block is cleared and its number goes to the lowest empty slot of the head; if and only if no slot is empty, the head moves into the freed block and links it |
| FreeList.FreeCounts | src/data_blocks_handler.c:202-203 | the counter keeps equal, modulo 2^64, to the listed ids plus the frees that found the head full |
| FreeRuns.AllocIsPop | src/data_blocks_handler.c:104-133 | on a packed chain alloc is pop, also when it consumes a list block, and the chain stays packed |
| FreeRuns.FreeIsPush | src/data_blocks_handler.c:174-201 | on a packed chain free is push, also when the head spills, and the chain stays packed |
| FreeRuns.FreeThenAlloc | src/data_blocks_handler.c:174-203 | free then alloc returns the same block exactly when the head list is packed, and then restores the volume but for the cleared block and the counter, which a full head leaves one higher |
| FreeRuns.AllocExhausts | src/data_blocks_handler.c:104-133 | alloc fails exactly on an empty free set; from n free blocks exactly n allocations succeed and return the whole set, each block once |
| FreeRuns.RunKeeps | src/data_blocks_handler.c:88-207 | over every run of allocs, frees and writes each data block is free or held, never both, num_free_blocks equals listed ids plus spills modulo 2^64, and block 0 holds the superblock |
| FreeRuns.RunFrame | src/data_blocks_handler.c:88-207 | a run changes no inode block and no held block that it does not name |
| FreeRuns.RunReadsBack | src/common.c:7-20 | at every point of a run init_superblock reads back the superblock as it is in memory |
| FreeRuns.CounterExact | src/data_blocks_handler.c:111 | far from 2^64 the counter is exact and never underflows |
| FreeRuns.RunIsStack | src/data_blocks_handler.c:88-207 | started packed, any run behaves as an ideal stack |
| Mkfs.SizingLaws | src/mkfs.c:39 | num_free_blocks is D(K-1)/K without overflow, and the number of lists is the ceiling of D/K |
| Mkfs.FormatFreeList | src/mkfs.c:90-126 | the entries of the ceil(D/K) lists and the lists behind the head are all data blocks but the head, each once; num_free_blocks counts the entries; block 0 holds the superblock |
| Mkfs.FormatLists | src/mkfs.c:90-126 | every number of the chain: list i lies in block 1 + NUM_INODE_BLOCKS + i, links the next one, and is filled from the last slot down with the blocks behind the lists in ascending order, then zeros |
| Mkfs.FormatCounters | src/mkfs.c:39-47 | num_free_blocks and num_free_inodes of a fresh volume |
| Mkfs.FormatFillsLists | src/mkfs.c:109-117 | every list but the last is full |
| Mkfs.FormatPacked | src/mkfs.c:108-117 | a fresh volume is packed if and only if K - 1 divides num_free_blocks |
| Mkfs.FormatRunCounts | src/mkfs.c:39 | over every allocator run from mkfs the counter is the listed ids plus the spilling frees, and is positive when it is about to be decremented |
| Mkfs.FormatTable | src/mkfs.c:67-88 | after mkfs every inode slot is free and numbered, and the slots behind the last inode are untouched |
| MkfsCalls.CreateSuperblock | src/mkfs.c:36-65 | the two counters get the values the sizing laws are about, and the superblock is written to block 0 |
| MkfsCalls.CreateInodes | src/mkfs.c:67-88 | the in-place loop writes the inode table of a fresh volume |
| MkfsCalls.FillList | src/mkfs.c:108-117 | the inner loop fills a list from the last slot down and advances to the next block to list |
| MkfsCalls.CreateFreeBlocks | src/mkfs.c:90-126 | the in-place loops write the chain the format theorems are about |
| MkfsCalls.CreateFile | src/syscalls1.c:127-142 | in-place creation of a file ends in the state of the file creation the run theorems are about |
| MkfsCalls.CreateDir | src/mkfs.c:128-158 | in-place creation of a directory ends in the state of the directory creation the run theorems are about |
| MkfsCalls.CreateFs | src/mkfs.c:8-33 | the whole of mkfs; it succeeds exactly when there is a data block behind the list head |
| MkfsCalls.StartFs | src/fstr.c:141-156 | the in-place start of the program: create_fs, then init_superblock |
| BlockMap.GetIsCell | src/block_utils.c:52-78 | a lookup reads one cell of the file's tree, found by division and remainder |
| BlockMap.LookupPath | src/block_utils.c:52-78 | the way to every block of a file, slot by slot, by division and remainder; no block behind NUM_DIRECT + K + K^2 + K^3 |
| BlockMap.LeafInjective | src/block_utils.c:52-78 | different indices have different cells |
| BlockMapLaws.SetBlockIdStores | src/block_utils.c:148-202 | set_block_id changes one cell, may hang cleared index blocks on the way to it, and keeps the world sound, whether it succeeds or not |
| BlockMapLaws.SetThenGet | src/block_utils.c:148-202 | for every index: after success it reads the new id and every other index reads what it did, siblings under fresh index blocks included; after failure every lookup is unchanged, and the index is out of range or the free list is exhausted |
| BlockMapLaws.SetKeepsOthers | src/block_utils.c:148-202 | the lookups of every other file are unchanged |
| BlockCalls.SetSingleId | src/block_utils.c:80-92 | in-place update of one slot |
| BlockCalls.SetDoubleId | src/block_utils.c:94-119 | in-place update below a double indirect block, allocating the index block if needed |
| BlockCalls.SetTripleId | src/block_utils.c:121-146 | in-place update below a triple indirect block, allocating index blocks if needed |
| BlockCalls.SetBlockIdOf | src/block_utils.c:148-202 | in-place set_block_id ends in the state and inode that SetThenGet is about |
| Leaves.MapFreshBlock | src/syscalls2.c:454-458 | allocating a block and mapping it at a hole changes one index of one file and nothing a file can see |
| Leaves.WriteLeaf | src/data_blocks_handler.c:156-158 | overwriting a mapped block changes one index of one file |
| FileIO.ReadStep | src/syscalls2.c:361-399 | every iteration of the read loop copies at least one byte and stays inside a block |
| WriteLaws.ChunkMaps | src/syscalls2.c:449-486 | one write iteration maps its block if it was a hole and patches exactly the chunk |
| WriteLaws.LoopRefines | src/syscalls2.c:449-486 | the write loop overlays the data on the bytes of the file, keeps every other file, and counts mapped blocks right |
| WriteLaws.LoopEnds | src/syscalls2.c:449-486 | however the write loop ends, no other file and no inode block changes, no block gets a second owner or is left without one, the counters keep their meaning; it has written all bytes, or exactly those before the first hole for which the free list or the index range gave no block |
| WriteLaws.FinishSizes | src/syscalls2.c:489-499 | the branch after the loop makes the size the larger of the old size and the end of the write |
| WriteLaws.PwriteRefines | src/syscalls2.c:411-510 | a successful pwrite makes the contents the old ones, zero-extended and overlaid; sizes, zeros past the end, nothing mapped past num_blocks and num_allocated_blocks are kept; exactly the blocks written are mapped in addition; no other file, inode block or block owner changes, and the counters keep their meaning |
| WriteLaws.PwriteEnds | src/syscalls2.c:434-463 | when pwrite fails as too big; every other failure needs an index out of range or an exhausted free list; four free blocks for each block written are enough (how far a failed write gets: WriteDamages) |
| WriteLaws.EmptyWrite | src/syscalls2.c:489-499 | a pwrite of length 0 keeps the contents if and only if its offset is not behind the end |
| ReadLaws.PreadReturns | src/syscalls2.c:350-399 | what pread returns for every file, offset and length, holes as zeros: nothing exactly when nothing is asked for or the offset is not below the size taken as an int |
| ReadLaws.PreadBySize | src/syscalls2.c:181-186 | the same in terms of the lowest 32 bits of the size: with the sign bit set nothing can be read, otherwise exactly the bytes before that position |
| Codec.ToIntIs | src/syscalls2.c:181-186 | the size as an int is its lowest 32 bits in two's complement |
| ReadLaws.PreadIsSlice | src/syscalls2.c:369-376 | pread equals the POSIX slice if and only if nothing is asked for, it starts past the end, or it starts below the size taken as an int and stays within the size or the size is no multiple of the block size |
| ReadLaws.OverlongRead | src/syscalls2.c:369-376 | for instance, a read of one byte more than a file of one block holds delivers that byte too |
| ReadLaws.WriteThenRead | src/syscalls2.c:323-510 | bytes just written are read back if and only if they start below the new size taken as an int |
| FileCalls.WriteChunkAt | src/syscalls2.c:449-486 | one in-place iteration of the write loop |
| FileCalls.WriteBytes | src/syscalls2.c:443-486 | the in-place write loop ends in the state LoopRefines is about, at the block and offset of the last byte |
| FileCalls.UpdateSize | src/syscalls2.c:489-499 | the in-place size update is the one FinishSizes is about |
| FileCalls.ReadBytes | src/syscalls2.c:354-399 | the in-place read loop returns what PreadReturns is about |
| FileCalls.OpenOn | src/syscalls2.c:217-249 | the whole of open, from the inode number on, on volume, cache and descriptor tables |
| FileCalls.PwriteOn | src/syscalls2.c:411-510 | the whole of pwrite on volume, cache and descriptor tables |
| FileCalls.PreadOn | src/syscalls2.c:323-409 | the whole of pread on volume, cache and descriptor tables |
| SyscallLaws.WrongDescriptor | src/syscalls2.c:335-343 | through a descriptor from 3 on that is not open, or open in the wrong mode, reads and writes fail and change nothing; the standard descriptors 0 to 2 are outside the model |
| SyscallLaws.PwriteCallIsWrite | src/syscalls2.c:420-431 | a pwrite through a descriptor open for writing does to the file system what the write does, and fails only when that fails |
| SyscallLaws.PwriteCallWrites | src/syscalls2.c:411-510 | a pwrite that does not fail writes all bytes, refines the ideal write and moves the offset of its descriptor behind the last byte; no other descriptor changes |
| SyscallLaws.PreadCallReads | src/syscalls2.c:323-409 | a pread through an open descriptor returns the bytes of the ideal file and changes nothing visible but the offset of its descriptor |
| Inodes.PutGetSlot | src/inodes_handler.c:50-57 | writing an inode slot changes that slot only |
| Inodes.SlotInTable | src/inodes_handler.c:15-17 | slot addresses are inside the inode blocks |
| Inodes.SlotPlace | src/inodes_handler.c:15-17 | inode n lies in block 1 + (n - 1) / SLOTS, at slot (n - 1) % SLOTS of INODE_WIDTH words each |
| Inodes.SlotAddressInjective | src/inodes_handler.c:15-17 | different inodes have different slots |
| Inodes.WriteReadSlot | src/inodes_handler.c:50-57 | iput then iget round-trips; every other slot is unchanged |
| CacheLaws.ScanBehind | src/inodes_handler.c:60-77 | what the scan finds behind the last inode: -1 if and only if no slot there is of type TYPE_FREE, or the first one that is carries -1 |
| CacheLaws.IallocFails | src/inodes_handler.c:60-89 | with a free inode ialloc succeeds; without one it fails, changing nothing, if and only if no slot behind the last inode is mistaken for a free one |
| CacheLaws.IallocTakesFree | src/inodes_handler.c:60-116 | ialloc hands out a free inode or fails without a change if and only if some inode is free or no slot behind the last one is mistaken for a free one; otherwise it counts down the free inodes and writes an inode in use, or one it has never read, where its number points |
| CacheLaws.StrayTaken | src/inodes_handler.c:79-116 | for instance, a table in use behind which a larger volume has left a free slot: iget fails, the count of free inodes wraps around, and ialloc succeeds with what the caller's inode happened to hold |
| CacheLaws.IallocLowest | src/inodes_handler.c:60-116 | with a free inode, ialloc takes the lowest one, gives it one link, changes no other slot, and commits the superblock |
| CacheLaws.RunCoherent | src/inode_table.c:10-74 | over every run of get_inode, put_inode and ialloc, releases of files of a sound world included, a cached inode with links equals its slot |
| CacheLaws.PutThenGet | src/inode_table.c:10-74 | after put_inode of a live inode, get_inode returns it through any evictions until it is put again |
| CacheLaws.StaleAfterPut | src/inode_table.c:38-44 | after put_inode the cached copy equals the slot if and only if the inode has links |
| CacheLaws.CacheIsLru | src/inode_table.c:21-74 | after any run, whatever the table holds, the cache holds exactly the MAX_CACHE_SIZE - 1 most recently used inodes, in order of last use |
| CacheLaws.PutCacheLaws | src/inode_table.c:46-74 | the entry just inserted is never evicted; only the oldest one is |
| ReleaseLaws.LoopReleases | src/inodes_handler.c:37-44 | lookups stay stable although the loop rewrites blocks, each mapped block is freed once, and the counter counts them |
| ReleaseLaws.IndexSetEmpty | src/inodes_handler.c:37-44 | a file has no index blocks, so that a release loses none, if and only if its three indirect fields are 0 |
| ReleaseLaws.IputReleases | src/inodes_handler.c:30-47 | iput without links frees exactly the data blocks below num_blocks, clears them unless they become list blocks, and loses exactly the other blocks of the file; a file that keeps its promises loses none if and only if its indirect fields are 0; a count of blocks that was right ends at 0; other slots and files are unchanged |
| ReleaseLaws.ReleaseIsPush | src/inodes_handler.c:37-44 | on a packed volume the blocks of the file end on top of the free stack, in the order of their indices |
| InodeCalls.IgetFrom | src/inodes_handler.c:6-28 | the in-place read of a slot |
| InodeCalls.NextFreeInode | src/inodes_handler.c:60-77 | the nested scan returns the number in the first slot of type TYPE_FREE, or -1 |
| InodeCalls.IallocFrom | src/inodes_handler.c:79-116 | in-place ialloc, which goes on when iget fails, ends in the state IallocLowest and IallocTakesFree are about |
| InodeCalls.IfreeIn | src/inodes_handler.c:118-146 | in-place ifree blanks one slot and counts it |
| InodeCalls.ReleaseBlocksOf | src/inodes_handler.c:37-44 | the in-place release loop ends in the state LoopReleases is about |
| InodeCalls.IputTo | src/inodes_handler.c:30-58 | in-place iput ends in the state IputReleases is about |
| InodeCalls.InodeTable.GetCached | src/inode_table.c:21-36 | a hit moves the entry to the end of the order |
| InodeCalls.InodeTable.PutCached | src/inode_table.c:46-74 | replaces the entry, then drops the oldest one at the limit |
| InodeCalls.InodeTable.Get | src/inode_table.c:10-19 | get_inode through the cache |
| InodeCalls.InodeTable.Put | src/inode_table.c:38-44 | put_inode writes through and caches |
| DirBlock.PutEntry | src/common.c:108-111 | at byte level, writing an entry changes that entry only |
| DirBlock.PutEntryBytes | src/common.c:108-110 | exactly the four bytes of the number and the bytes of the name with its terminator are written |
| DirBlock.EntryLayout | src/common.h:103-106 | the number of an entry is the i-th int of the block, its name the i-th array of 60 bytes behind the numbers, up to the first zero |
| DirBlock.EntriesFill | src/common.h:103-106 | BLOCK_SIZE / 64 entries fill a block; a name has at most 59 bytes, none of them zero |
| DirBlock.InitDirBlockEntries | src/common.c:37-49 | a formatted block holds "." and ".." and nothing else, whatever was there before |
| DirLaws.LookupIsMap | src/namei.c:38-48 | the block scan finds exactly the names of the map, and their inodes |
| DirLaws.DirAddRefines | src/common.c:51-85 | adding a new name adds it to the map; the directory grows by one block if and only if no entry of its last block is unused; other fields of its inode, other names and other files are untouched |
| DirLaws.DirRemoveRefines | src/common.c:87-102 | removing an inode number removes the first entry that has it, with its name; it fails exactly when there is none |
| DirLaws.DirRemoveOnce | src/common.c:87-102 | when the number occurs once, exactly its name disappears |
| DirPages.PutAdds | src/common.c:108-111 | filling an unused entry with a new name adds it to the map |
| DirPages.PutRemoves | src/common.c:126-129 | clearing an entry removes its name from the map |
| DirCalls.AddEntry | src/common.c:104-120 | the in-place scan fills the first unused entry, or reports a full block |
| DirCalls.RemoveEntry | src/common.c:122-133 | the in-place scan clears the first entry with the number |
| DirCalls.CheckBlock | src/namei.c:7-18 | the scan returns the inode of the first entry with the name, or -1 |
| DirCalls.FormatBlock | src/common.c:37-49 | in-place init_dir_block |
| DirCalls.AddEntryToParent | src/common.c:51-85 | in-place add ends in the state DirAddRefines is about |
| DirCalls.RemoveEntryFromParent | src/common.c:87-102 | in-place remove ends in the state DirRemoveRefines is about |
| DirCalls.ScanForName | src/namei.c:38-48 | the in-place scan of a directory |
| Descriptors.FullTable | src/syscalls2.c:95-97 | the counters of a table are equal exactly when all its entries are in use |
| Descriptors.PickLaws | src/syscalls2.c:106-135 | allocation picks the lowest unused descriptor from 3 on and keeps existing entries when the table doubles |
| Descriptors.OpenRefines | src/syscalls2.c:106-135 | allocating a descriptor in the tables is opening a file on a map from processes to open files |
| Descriptors.CloseRefines | src/syscalls2.c:256-277 | close on the tables is close on that map, error cases included |
| Descriptors.RunRefines | src/syscalls2.c:36-277 | over every run of opens and closes tables and map agree, results included |
| Descriptors.TableIffOpen | src/syscalls2.c:272-275 | a process has a table exactly when it has an open file |
| FdCalls.ScanForUnused | src/syscalls2.c:98-103 | the scan returns the first unused entry from 3 on, or -1 |
| FdCalls.Double | src/syscalls2.c:121-128 | the resized array keeps the old entries and marks the new ones unused |
| FdCalls.FdTables.OpenFd | src/syscalls2.c:106-135 | in-place allocation of a descriptor, as a table step and as a map step |
| FdCalls.FdTables.CloseFd | src/syscalls2.c:256-277 | in-place close, as a table step and as a map step |
| SystemInv.OneOwner | src/data_blocks_handler.c:88-207 | in every reachable state a block is free, lost, or held by one cell of one file, never two of these; no block at or below the list head has an owner |
| SystemInv.FreeInodesCount | src/inodes_handler.c:93-122 | num_free_inodes is the number of slots of type TYPE_FREE |
| SystemInv.SysCoherent | src/inode_table.c:10-74 | in every reachable state the inode cache is coherent |
| SystemInv.LegalRelease | src/syscalls1.c:203-208 | releasing a file of the system is a legal put in the sense of the cache laws |
| SystemInv.InitKeeps | src/common.c:7-16 | init_superblock with an empty cache keeps the invariant, with the same files |
| SystemLaws.WriteKeeps | src/syscalls2.c:411-510 | a successful write keeps the invariant of the whole system and changes the view of one file |
| SystemLaws.EnterKeeps | src/common.c:51-85 | so does adding a directory entry |
| SystemLaws.LeaveKeeps | src/common.c:87-102 | so does removing one |
| SystemLaws.ReleaseKeeps | src/syscalls1.c:203-208 | so does releasing a file, which disappears from the view; exactly its index blocks join the lost blocks |
| SystemLaws.MakeFileKeeps | src/syscalls1.c:127-142 | so does making a file, which succeeds while there is room for an inode and gives it the lowest free number |
| SystemLaws.MakeDirKeeps | src/syscalls1.c:39-83 | so does making a directory, which succeeds with a free block and room for an inode, and holds "." and ".." |
| AbortLaws.Revert | src/syscalls2.c:454-463 | a file whose inode is not put after a failure keeps its old inode: all owners stay unique, and what only the new inode reaches is lost |
| AbortLaws.RevertRooted | src/syscalls2.c:454-463 | under the old inode a cell holds what it held under the new one if the inode field on the way to it was set before, and nothing otherwise |
| AbortLaws.WriteTooBig | src/syscalls2.c:436-441 | a write refused as too big changes nothing |
| AbortLaws.WriteDamages | src/syscalls2.c:411-510 | a write, failing or not, keeps the ownership of all blocks, the table, the cache, the counters and every other file; when it fails, the file keeps its inode and size, and holds exactly the bytes before the block that could not be had, as far as their blocks are reached through inode fields that were set, and its old bytes elsewhere |
| AbortLaws.FailedWrite | src/syscalls2.c:449-486 | a byte of a failed write has landed when its block and all earlier blocks of the write were mapped before |
| AbortLaws.EnterFails | src/common.c:51-85 | a failed add changes no view, not even that of the directory |
| AbortLaws.AddEnds | src/common.c:51-85 | an add fails only when no inode maps another block or the free list runs out; four free blocks are enough |
| AbortLaws.MakeFull | src/syscalls1.c:39-57 | when every inode is in use, mknod fails without a change if and only if no slot behind the last inode is mistaken for a free one; then mkdir fails too and loses exactly the block it has allocated |
| SystemRuns.CallSucceeds | src/syscalls2.c:454-463 | a call with enough room succeeds; only writes, new entries and new directories need any |
| SystemRuns.RunRefines | src/syscalls2.c:411-510 | over every run of calls, failing ones included, disk and cache stand for the ideal file system, every data block has one owner, num_free_blocks moves with the listed ids and the spilling frees, num_free_inodes counts the free slots, no slot behind the last inode changes, and no block is lost unless a file is released or a call fails |
| SystemRuns.RunIsolates | src/syscalls2.c:449-486 | no call, failing or not, changes the bytes or entries of a file it is not about |
| SystemRuns.ReadIdeal | src/syscalls2.c:323-409 | in every reachable state a read returns what the ideal file holds |
| SystemRuns.LookupIdeal | src/namei.c:38-48 | in every reachable state the scan of namei finds in a directory what the ideal directory holds |
| SystemRuns.NameIsFound | src/syscalls1.c:110-146 | every name of up to 59 bytes can be entered, given room, and is found then |
| SystemRuns.StatShows | src/syscalls1.c:288-312 | in every reachable state lstat shows the number, one link, the size of the ideal file and the number of its mapped blocks; for a directory the size of its blocks, and no block count |
| SystemRuns.WriteSurvives | src/syscalls2.c:323-510 | bytes written are read back after any run of calls about other files, if and only if they start below the size taken as an int |
| SystemRuns.BootMakesRoot | src/mkfs.c:8-33 | mkfs succeeds exactly when a data block exists behind the head, and makes the root directory and nothing else |
| SystemRuns.RunFromBoot | src/mkfs.c:8-33 | every run of calls from mkfs refines the ideal file system and keeps the invariant; num_free_blocks is the number of listed blocks plus the spilling frees; without releases and failures every data block stays free or in use |
| SystemRuns.StartIsBoot | src/fstr.c:141-156 | init_superblock after create_fs changes nothing |
| SystemRuns.RestartReformats | src/fstr.c:141-156 | a restart at any point of such a run finds a new file system, with the root directory and nothing else; it keeps the files if and only if there were no others |
| SystemRuns.ZeroedHasNoStrays | src/mkfs.c:67-88 | on a disk of zeros no slot behind the last inode is mistaken for a free one |
| CallRuns.ServeRefines | src/syscalls2.c:188-510 | open, close, pread and pwrite through descriptors, and the calls on the file system, do and answer what the ideal machine does |
| CallRuns.AllRefines | src/syscalls2.c:188-510 | so over every run, failing calls included |
| CallRuns.AllFromBoot | src/syscalls2.c:188-510 | so from mkfs on, with no file open |
| CacheRuns.StepUses | src/inode_table.c:10-74 | every call on the file system, failing or not, uses the one inode it is about, and moves it to the end of the cache order |
| CacheRuns.ServeUses | src/syscalls2.c:188-510 | so do open, pread and pwrite; close and calls through wrong descriptors use none |
| CacheRuns.RunUses | src/inode_table.c:46-74 | after every run of calls the cache holds exactly the MAX_CACHE_SIZE - 1 inodes the calls were last about, in order of last use |
| CacheRuns.RunUsesFromBoot | src/inode_table.c:46-74 | so from mkfs on, which leaves the root directory in the cache |

## Where code and expectation differ

The model follows the code; a condition says exactly when the code does what one expects.

* `main` calls `create_fs` whenever it starts, so the files of the last run are gone; a
  restart keeps them if and only if there were none but the root directory
  (`SystemRuns.RestartReformats`). `init_superblock`, called after that, reads back what is
  in memory anyway (`SystemRuns.StartIsBoot`).
* `pread` notices the end of the file only inside the last block, so a read across the
  end of a file of whole blocks is filled up with zeros; and it takes the size as an `int`,
  so that a file of 2 to 4 GiB cannot be read at all (`ReadLaws.PreadIsSlice` gives the
  exact condition, `ReadLaws.OverlongRead` and `ReadLaws.PreadBySize` the sizes concerned).
* A `pwrite` of length 0 behind the end of a file extends it: the size branch runs although
  nothing was written. The contents stay if and only if the offset is at most the size
  (`WriteLaws.EmptyWrite`).
* `iput` frees data blocks but not index blocks; nothing is lost if and only if the three
  indirect fields are 0 (`ReleaseLaws.IputReleases`).
* mkfs fills its last list from the high end, so a fresh volume is packed if and only if
  K - 1 divides `num_free_blocks` (`Mkfs.FormatPacked`); free-then-alloc returns the same
  block if and only if the head list is packed (`FreeRuns.FreeThenAlloc`).
* `put_inode` caches an inode it has just released; the cached copy equals the slot if and
  only if the inode has links (`CacheLaws.StaleAfterPut`), so coherence is about those.
* `next_free_inode_number` scans the slots behind the last inode too, which mkfs does not
  write, and `ialloc` ignores that `iget` fails on what it finds there. A volume formatted
  with a larger FS_SIZE before leaves such slots. `ialloc` hands out a free inode or fails
  without a change if and only if some inode is free, or no slot behind the last one is of
  type TYPE_FREE, or the first such slot carries -1 (`CacheLaws.IallocTakesFree`,
  `CacheLaws.ScanBehind`; `CacheLaws.StrayTaken` is an instance where it goes wrong).
* mkdir allocates the block before it asks for an inode, and loses it when there is none
  (`AbortLaws.MakeFull`); a failed write or add loses the blocks that only the inode in
  memory reached (`AbortLaws.Revert`).
* Comments in `src/data_blocks_handler.c` speak of 4-byte block numbers; the code uses 8.

## Left out

* Real disk access, seeking and short transfers in `src/disk_emulator.c`; the in-memory disk is the model.
* The fields of the superblock that never change (volume size, list head, first inode number) are constants, written to block 0 with the counters.
* Owner, group, mode and timestamps of inodes, errno, logging, memory allocation, FUSE.
* The packing of the small fields of an inode: every modelled field takes one 8-byte word of the slot.
* Sizes: BLOCK_SIZE is a multiple of 64 with room for an inode slot, which is a multiple of 8 bytes; a block holds at most 2^20 block numbers, so that the index arithmetic fits 64 bits; NUM_INODES fits an `int`; the volume size in bytes fits 64 bits; NUM_INODE_BLOCKS is the exact ceiling, without float rounding.
* An inode whose number is not positive, or whose block is not on the disk, as only an unread one can be: the source writes outside its block buffer or to a block that an uninitialised buffer names; here `ialloc` fails after it has counted, and `iput` fails.
* Negative offsets and descriptors. Transfers of 2^31 bytes or more, for which the source's `min` on `int` goes wrong: lengths have the types `FileIO.ByteCount` and `FileIO.Buffer`.
* The fields of descriptors 0 to 2 and of unused entries, which the source leaves uninitialised; they have fixed values here.
* `open` with O_APPEND or O_CREAT, permissions, and the lookup of the process id.
* The checks of `unlink` and `rmdir` before they release a file: its type, and that a directory is empty.
* Path handling, `rename`, `readdir`, `chmod`, `utimens`; a call is modelled from the inode on. Two calls that mkdir and mknod make (making the inode, entering the name) are two steps of a run.
* Reads and writes through descriptors whose inode has been released and not been given out again, and reads of a damaged file in a run.
* Making a file or a directory in a run when every inode is in use and a slot behind the last one is mistaken for a free one.
* Buffers that a failed read leaves as they were are modelled in `namei` and `ialloc`; elsewhere a failed read ends the call, which no sound volume can show.
* Concurrency: the source takes no locks.
