# Verified models of the Machina storage stack and build tools

This project models the parts of the Machina repository where state, arithmetic
or interleaving make mistakes likely, and proves what those parts promise. Each
layer is shown to behave like a much simpler object.

| files | models | behaves like |
|---|---|---|
| BlockTree, Inode, PointerPage | the block directory of a DFS inode | a sequence of block numbers; no page leaked or freed twice |
| File | reading and writing DFS files | splice and slice on one byte sequence |
| Bitmap, Allocator, Format, Volume | bitmap search, block and inode allocation, formatting | a set of free numbers |
| Links, BufferLists, BufferCache, CacheRuns | the DFS buffer pool | a device overlaid with pending writes |
| HeldBuffers, CachedTree, CachedFile | the block directory and files working through the buffer pool | the same steps on the blocks, with an exact account of the locks |
| Vmdk, VmdkDevice | sparse VMDK images | a flat zero-filled disk |
| CriticalSection | enter and leave of the critical section | a re-entrant lock, on every interleaving |
| HashTable | NASM's hash table | a finite map |
| DebugLink | run-length code and packets of the debugger link | a lossless channel that refuses damaged packets |
| ExprVector, Evaluator | NASM's expression evaluator | arithmetic modulo 2^64 under every assignment |
| Archive | the archiver's headers, index, writer and reader | a list of entries |

`Arith` and `Basics` hold shared arithmetic and notions. Code that changes state
is a class whose methods are proved against functions and predicates on values;
the laws are lemmas about those. Running out of disk space or of buffers stops
the original program; the models return `None`, `NIL`, `false` or an outcome of
that name there, and say when.

Some promises fail in the code. These are stated as they are, with an example
and the exact condition:

- `find_next_zero_bit` on a full range that ends inside a word names a position
  in use (`Bitmap.FindZeroIsScan`, `Bitmap.FindZeroPartialWord`). Through it
  `new_block` can hand out a block in use, behind the goal or behind a hint
  (`Allocator.FullPartialGroup`, `Allocator.HintNamesUsed`); `Misled` is the exact
  condition (`Allocator.Filesystem.NewBlock`). Volumes of whole-word groups never
  meet it, and `Format.FreshAligned` says which volumes those are. On all others
  growing a file is right exactly if none of its searches is misled
  (`Inode.ExpandInode`, `FileIO.File.Write`); allocation runs are about volumes of
  whole-word groups.
- After a mount, freeing a block can make a group's hint skip a free block, and
  "disk full" comes too early (`Allocator.GivenHint`,
  `Allocator.MountedLosesBlock`; exactly when: `Allocator.FullTooEarly`, and in
  which runs it cannot: `Format.FormatAndServe`).
- `create_filesystem` drops a last group too small for its metadata but not its
  blocks from the super block's counts (`Format.BuildGroups`, `Format.TailExample`).
- `dfs_lseek` takes a position outside the unsigned 32-bit range modulo 2^32
  (`FileIO.File.Lseek`, `FileIO.SeekWraps`).
- `vmdk_write` masks where `vmdk_read` divides: for cluster sizes that are no power
  of two a write lands elsewhere (`VmdkDevice.WritesFlatExactly`,
  `VmdkDevice.WriteGoesAstray`).
- `vmdk_create` does not truncate the file it opens, so an image made over old
  grain tables can show old data, or fail to read
  (`VmdkDevice.CreateTwice`; exactly when: `VmdkDevice.ReadsZeros`).
- `set_inode_block` does not release the page above a directory page it adds, so
  buffers stay locked and a flush skips them (`CachedTree.NextPage`; exactly when:
  `CachedTree.SetInodeBlock`, for whole files `CachedFile.FirstLockLeft`, and what
  reaches the device: `CachedFile.WriteAndFlush`).
- `lookup_buffer` hands out a zeroed buffer for a block whose cached copy is
  marked invalid, whatever the device holds (`BufferCache.BufferPool.GetBuffer`,
  `BufferCache.GetInvalidAgain`).
- `dbg_recv_rle` does not stop inside a run, so a run longer than what is left
  makes its count of bytes left wrap (`DebugLink.WrittenExactly`,
  `DebugLink.RunPastEnd`).
- The archiver takes a file whose path ends in a separator for a symbol table
  (`Archive.FilledNames`, `Archive.WrittenAndRead`), and lets owner ids of more
  than six digits run into the next field (`Archive.FillHeader`).
- The archiver reads size fields with a leading zero as octal
  (`Archive.ZeroPadded`, `Archive.LeadingZeroIsOctal`).

Devices, files and byte streams are sequences; hash functions, descriptor text,
entry headers and symbol lists are parameters. `dafny verify dfyconfig.toml`
checks the whole project.

## Model

| member | source | states |
|---|---|---|
| `BlockTree.DigitsSpell` | utils/dfs/inode.c:12-26 | the indices that split_levels produces spell the block index in base B, so different blocks have different paths |
| `BlockTree.UpIsShift` | utils/dfs/inode.c:12-26 | the index of a node's ancestor h levels up is the block index divided by B^h |
| `BlockDirectory.ShiftDigit` | utils/dfs/inode.c:12-26 | masking and shifting by multiples of log2(B), as the code does, yields exactly the mixed-radix digits |
| `BlockDirectory.Inode.SplitLevels` | utils/dfs/inode.c:12-26 | the offsets are those digits and spell the index back |
| `BlockTree.PathStep` | utils/dfs/inode.c:33-53 | one step down the path: the page for index x at height h holds, at that level's digit, the node for x at height h-1 |
| `PointerPage.PtrIsLittleEndian` | utils/dfs/inode.c:43-50 | an entry of a directory page is the number its four bytes spell, the lowest first |
| `PointerPage.PtrBytesSpell` | utils/dfs/inode.c:131-134 | and is written so |
| `BlockDirectory.Inode.GetInodeBlock` | utils/dfs/inode.c:33-53 | a lookup through the directory pages returns entry iblock of the inode's plain block sequence; beyond its end, along existing roots, 0 at depth 0 and none deeper |
| `BlockTree.RepAppend` | utils/dfs/inode.c:71-130 | storing a fresh block in the next free entry of any layer keeps the page representation and adds exactly that block to what the tree owns |
| `BlockTree.RepCut` | utils/dfs/inode.c:316-360 | clearing the last entries of a layer whose own pages are empty keeps the representation and gives up exactly those blocks |
| `BlockTree.RepDeepen` | utils/dfs/inode.c:226-250 | moving the 16 roots into one new page adds a level and keeps every layer; needs pages of at least 16 pointers |
| `BlockTree.LayerSize` | utils/dfs/inode.c:55-141 | in a tree without empty pages, layer j over n data blocks has ceil(n / B^j) nodes |
| `BlockTree.OwnedCount` | utils/dfs/inode.c:268-375 | conservation law: a tree of n blocks and depth D owns exactly n + sum over j=1..D of ceil(n / B^j) blocks, all different |
| `BlockDirectory.Capacity` | utils/dfs/inode.c:226-228 | a tree of depth D holds at most 16 * B^D blocks, and the next block's root index is in range unless it is full |
| `BlockDirectory.SoundDeepened` | utils/dfs/inode.c:226-250 | gaining a level keeps the tree well formed, conserves blocks and changes no earlier lookup |
| `BlockDirectory.Inode.IncreaseDepth` | utils/dfs/inode.c:226-250 | on any volume, with any hints: takes one free block, searched for in front of the first root, moves the roots into it, keeps the block sequence, or nothing changes if the search gives up; it strays exactly if that search is misled |
| `BlockDirectory.Inode.SetInodeBlock` | utils/dfs/inode.c:55-141 | appends one free block, creating the missing pages on its path, on any volume and with any hints, if and only if none of its searches is misled; the log has all of them: the first starts behind the last block, behind the lowest page there is on the path, or at the inode's group, each further one behind the block found before, and each finds what the allocator chooses; with sound hints it fails exactly if the free blocks do not cover the larger tree |
| `BlockDirectory.Inode.ExpandInode` | utils/dfs/inode.c:219-254 | the block sequence grows by exactly one block taken from the free set, every earlier index keeps its block, the depth grows exactly when the tree was full: on any volume if and only if no search on the way, for a page or the block, is misled, and so always on volumes of whole-word groups; where one block is all it takes, the search is the one behind the last block; with sound hints it fails exactly if the free blocks do not cover the new tree size |
| `BlockDirectory.Inode.AppendFlat` | utils/dfs/inode.c:64-79 | on any volume an append at depth 0 is a proper one if the search behind its goal is not misled; otherwise the block was neither free nor the tree's own, or the tree is damaged |
| `BlockDirectory.Inode.AppendDeep` | utils/dfs/inode.c:80-138 | the same at any depth, pages included; where the pages on the path exist the one search starts behind the last block |
| `BlockDirectory.Inode.NextEntry` | utils/dfs/inode.c:99-121 | one level down the path: the page there, or a new zeroed one entered in this page, searched for behind this one; strays exactly if that search is misled, and then goes no further |
| `BlockDirectory.Inode.LeafEntry` | utils/dfs/inode.c:123-137 | the data block at the end of the path, searched for behind the last block or, in a new leaf page, behind that; completes the append exactly if the search is not misled |
| `BlockDirectory.FirstGoalIs` | utils/dfs/inode.c:82-129 | where pages are missing on the path, the first search starts behind the lowest page there, or at the inode's group if there is none |
| `BlockDirectory.StrayedIsNot` | utils/dfs/inode.c:219-254 | an append whose last search strayed is never a proper append: the block was not free before, or the tree holds it twice |
| `BlockDirectory.Inode.RemoveLeafBlocks` | utils/dfs/inode.c:256-266 | frees the blocks from position n of the last leaf and clears their entries |
| `BlockDirectory.Inode.ClimbFreeing` | utils/dfs/inode.c:329-350 | after a leaf page was freed, clears the entries above and frees exactly the pages that became empty |
| `BlockDirectory.Inode.TrimLastLeaf` | utils/dfs/inode.c:300-361 | one iteration removes the last leaf's blocks, or as many as are still to go, and leaves the tree of the remaining blocks |
| `BlockDirectory.Inode.TruncateInode` | utils/dfs/inode.c:268-375 | the first m lookups are unchanged, everything removed is free, nothing else became free; growing is refused; the loop ends |
| `BlockDirectory.TruncatedFrees` | utils/dfs/inode.c:268-375 | a truncation frees exactly the blocks that left the tree, and their number is the difference of the two tree sizes |
| `BlockDirectory.AppendThenTruncate` | utils/dfs/inode.c:219-375 | expanding and truncating back restores every layer of the tree and the free set if and only if the tree was not full and was not an empty tree with levels |
| `BlockDirectory.Volume.NewBlock` | utils/dfs/group.c:17-86 | new_block of the allocator seen from the tree, with any hints: the block was free if and only if the search is not misled, and then the free set loses exactly it; none exactly if nothing is chosen, with sound hints only if nothing is free; the goal if that is free |
| `BlockDirectory.Volume.FreeBlocks` | utils/dfs/group.c:88-123 | giving back distinct blocks in use through the allocator, with any hints, adds exactly them to the free set |
| `FileIO.ChunkSpliced` | utils/dfs/file.c:351-373 | patching the block under the position splices the chunk into the byte sequence of the whole file |
| `FileIO.File.Read` | utils/dfs/file.c:275-318 | returns the slice from the position, clipped at the size, and advances by its length |
| `FileIO.File.ReadChunk` | utils/dfs/file.c:283-315 | one iteration returns the bytes of the current block only, at their right place in the content |
| `FileIO.File.Write` | utils/dfs/file.c:320-377 | on any volume, mounted or not: splices the data in at the position, for any size and alignment, unless a search for one of the new blocks, all of them logged, is misled, which never happens on volumes of whole-word groups or without growth; with sound hints it then succeeds if and only if the free blocks cover the tree of the larger file, with others only if they do; no block outside the file and the free set changes |
| `FileIO.File.WriteChunk` | utils/dfs/file.c:336-373 | one iteration splices a chunk within one block, expanding by at most one block, inside the file and the free set; it cannot fail on a block the file has |
| `FileIO.File.BlockFor` | utils/dfs/file.c:342-349 | an existing block, with no search, or a new one at the end of the file, without changing the content |
| `FileIO.AppendedTotal` | utils/dfs/file.c:344-345 | expanding moves blocks from the free set to the tree one for one |
| `FileIO.SoundDataWrite` | utils/dfs/file.c:351-362 | writing a data block leaves the directory tree well formed |
| `FileIO.OtherFileKept` | utils/dfs/file.c:320-377 | whatever a file does inside its own blocks and the free set, another file on the volume stays well formed, keeps every byte and stays disjoint |
| `FileIO.WriteBeside` | utils/dfs/file.c:320-377 | writing one of two files on a volume, if no search strays, changes that one as told and not a byte of the other |
| `FileIO.File.Lseek` | utils/dfs/file.c:384-404 | in unsigned 32-bit arithmetic the seek lands on the wanted position or is refused if and only if that position is within 0..2^32-1 or its residue is beyond the size |
| `FileIO.SeekWraps` | utils/dfs/file.c:384-404 | concrete seek that wraps: delta 2^32-1 from position 5 of 10 lands on 4 |
| `FileIO.File.Chsize` | utils/dfs/file.c:406-427 | the file becomes its own prefix and the position is clipped; growing is refused and changes nothing |
| `FileIO.TruncatedContent` | utils/dfs/file.c:406-427 | cutting the block sequence to ceil(n/blocksize) leaves exactly the first n bytes |
| `FileIO.File.WriteSeekRead` | utils/dfs/file.c:275-404 | writing, seeking back and reading returns the same bytes, for any sizes and block boundaries, with the same condition for success |
| `Bitmap.FirstZero` | utils/dfs/bitops.c:70-79 | ffz returns the lowest clear bit of a word, and 0 for a word of all ones |
| `Bitmap.FindNextZeroBit` | utils/dfs/bitops.c:81-113 | the word-wise search with masked ends computes FindZero, for any bitmap length |
| `Bitmap.FindZeroIsScan` | utils/dfs/bitops.c:81-113 | FindZero equals the bit-by-bit scan if and only if the range is empty, ends on a word, or has a clear bit |
| `Bitmap.FindZeroPartialWord` | utils/dfs/bitops.c:70-113 | concrete bitmap where they differ: the search names a position that is in use |
| `Allocator.TakeConsistent` | utils/dfs/group.c:71-84 | taking a clear position keeps the counts right at both levels and removes exactly that number from the free set |
| `Allocator.GiveConsistent` | utils/dfs/group.c:96-121 | giving back a position in use keeps the counts right and adds exactly that number |
| `Allocator.FreeCount` | utils/dfs/group.c:71-84 | the super block's count is the number of free blocks |
| `Allocator.GivenHint` | utils/dfs/group.c:117-117 | a free keeps the group's hint sound if and only if it does not replace a missing hint by one that skips a clear bit |
| `Allocator.HintSearch` | utils/dfs/group.c:49-58 | with a sound hint the search finds the first clear bit of the group whenever there is one |
| `Allocator.MountedSound` | utils/dfs/super.c:322-333 | right after a mount the missing hints are sound |
| `Allocator.Filesystem.Mount` | utils/dfs/super.c:322-333 | the loop of open_filesystem forgets every hint and nothing else |
| `Allocator.MountedLosesBlock` | utils/dfs/group.c:41-69 | concrete mounted volume on which one free and one allocation make the search pass over a group with a free block |
| `Allocator.HintNamesUsed` | utils/dfs/group.c:41-69 | concrete mounted volume on which one free and one allocation make the cyclic search hand out a block in use, with an unmisled goal and a free block left |
| `Allocator.PassedWithClear` | utils/dfs/group.c:49-58 | a group with a clear bit is passed over if and only if no bit from its hint on is clear and the search starts at the end or the group is whole words |
| `Allocator.FullTooEarly` | utils/dfs/group.c:17-86 | the disk is reported full while a block is free if and only if the goal's group names nothing and every group with a clear bit is skipped by its hint |
| `Allocator.FullPartialGroup` | utils/dfs/group.c:32-34 | every goal but the last of a full group that ends inside a word misleads the search behind the goal |
| `Allocator.FullMisled` | utils/dfs/group.c:32-34 | on a full volume some goal is misled if and only if some group of more than one block ends inside a word |
| `Allocator.AlignedNeverMisled` | utils/dfs/group.c:30-58 | if every group is a whole number of words, no search is misled |
| `Allocator.SoundHintsLead` | utils/dfs/group.c:41-66 | sound hints never mislead the cyclic search |
| `Allocator.ChosenNearest` | utils/dfs/group.c:24-66 | what an unmisled search with sound hints finds: the first free block from the goal on in its group; else the start of that group's last word, if it is not whole; else the first free block of the first group that has one, around from the goal's |
| `Allocator.Filesystem.SearchAtGoal` | utils/dfs/group.c:24-39 | the goal if it is clear, else what the search behind it names; in use exactly for misled goals |
| `Allocator.Filesystem.SearchGroups` | utils/dfs/group.c:41-66 | the first group in cyclic order that is not passed over, and the position its search names, in use exactly if the hint misleads; fails if and only if every group is passed over |
| `Allocator.Filesystem.NewBlock` | utils/dfs/group.c:17-86 | for every consistent pool, sound hints or not: the block is the chosen one (goal, then cyclic order), there is one exactly if something is chosen, it was free if and only if the choice is not misled, and then exactly its bit flips and counts stay exact |
| `Allocator.Filesystem.FreeBlocks` | utils/dfs/group.c:88-123 | distinct blocks in use become free, nothing else changes, known sound hints stay so |
| `Allocator.SomeEligible` | utils/dfs/group.c:135-149 | pigeonhole: some group with a free inode has at least the average, exactly if any inode is free |
| `Allocator.Filesystem.DirectoryGroup` | utils/dfs/group.c:133-150 | among the groups with a free inode and no fewer than average, the first with the most free blocks |
| `Allocator.Filesystem.NearGroup` | utils/dfs/group.c:152-162 | the first group from the parent's on, cyclically, with a free inode |
| `Allocator.Filesystem.NewInode` | utils/dfs/group.c:125-197 | the position the search from the chosen group's hint names: none exactly at the end, and then nothing becomes free or in use; free if and only if not misled, and then exactly it is taken; with a sound hint the lowest clear inode whenever one is free |
| `Allocator.Filesystem.FreeInode` | utils/dfs/group.c:199-220 | exactly that inode becomes free |
| `Format.Coverage` | utils/dfs/super.c:147-160 | the groups cover the volume, the last one possibly short, or all but the tail if that is dropped |
| `Format.BuildGroups` | utils/dfs/super.c:198-241 | the loop puts the metadata of each group where its descriptor says; super block, reserved blocks, descriptors, bitmaps and inode tables are on the volume, in their group and disjoint, exactly the other blocks are free, all inodes are free, and counts and hints are right; the super block's counts are too high by the dropped tail, so right exactly if there is none |
| `Format.FreshFree` | utils/dfs/super.c:205-241 | after formatting exactly the blocks outside these areas are free |
| `Format.LayoutFits` | utils/dfs/super.c:122-155 | the sizes: a bitmap block has a bit for each block and inode of its group, one inode for every `ratio` bytes as far as the bitmap goes, and super block, descriptors and inode tables fit their areas with no block to spare |
| `Format.PartsApart` | utils/dfs/super.c:205-223 | the areas of all groups are on the volume, in their group and pairwise disjoint |
| `Format.MetaIsPrefix` | utils/dfs/super.c:218-223 | they fill the start of every group, without a gap |
| `Format.InodePlace` | utils/dfs/inode.c:204-208 | every inode number leads to a place inside the inode table of its group |
| `Format.InodePlacesDiffer` | utils/dfs/inode.c:204-208 | and no two lead to the same place |
| `Format.DescPlaces` | utils/dfs/super.c:185-189 | every group descriptor has its place in the descriptor table |
| `Format.TailExample` | utils/dfs/super.c:157-160 | concrete volume whose last block makes a group of its own that is dropped |
| `Format.ReserveInodes` | utils/dfs/super.c:264-269 | the reserve loop hands out 0, 1, 2, ... so its panic cannot happen |
| `Format.CreateFilesystem` | utils/dfs/super.c:122-241 | a formatted volume has a fresh block pool, with its metadata laid out as above, and a healthy inode pool without the reserved inodes |
| `Format.FreshAligned` | utils/dfs/super.c:122-241 | a formatted volume has whole-word groups if and only if its block count is a multiple of 32, and the same for inodes |
| `Format.Serve` | utils/dfs/group.c:17-220 | one request on the real pools, mounting included, with any hints: keeps the partition of blocks and inodes, hands out only free numbers, the goal if that is free, and fails exactly if nothing is chosen |
| `Format.FormatAndServe` | utils/dfs/super.c:122-333 | every run of new_block, free_blocks, new_inode, free_inode and mounts after formatting, on volumes of whole-word groups: in every state each block is metadata (in one of the areas above), held or free and each inode reserved, held or free, never two of these, and every answer is right; allocations fail exactly if nothing is free, except between a release after a mount and the next mount |
| `Format.LedIsSound` | utils/dfs/group.c:41-117 | in every such run the hints are sound until something is given back after a mount, and again after the next mount |
| `Format.SafeCounts` | utils/dfs/group.c:71-84 | in such a state both super block counts are total minus metadata or reserved minus held |
| `FormattedVolume.FormatVolume` | utils/dfs/super.c:122-333 | a formatted and mounted volume is one the block directory and file code can work on, with exactly the blocks outside the metadata areas free and sound hints; its groups are whole words if and only if the block count is a multiple of 32 |
| `BufferLists.UnlinkCleanOk` | utils/dfs/buf.c:110-122 | unlinking any member of the clean list leaves mutually inverse, acyclic links for the rest |
| `BufferLists.UnlinkDirtyOk` | utils/dfs/buf.c:124-136 | the same for the dirty list |
| `BufferLists.AppendCleanOk` | utils/dfs/buf.c:429-437 | appending at the tail keeps all three lists |
| `BufferLists.AppendDirtyOk` | utils/dfs/buf.c:439-447 | the same for the dirty list |
| `BufferLists.PopFreeOk` | utils/dfs/buf.c:233-244 | taking the head of the free list keeps all three lists |
| `BufferLists.PushFreeOk` | utils/dfs/buf.c:449-456 | pushing onto the free list keeps all three lists |
| `BufferLists.UnhashOk` | utils/dfs/buf.c:84-94 | unlinking a buffer from its bucket keeps every bucket a proper list |
| `BufferLists.HashInsertOk` | utils/dfs/buf.c:73-82 | inserting at a bucket's head keeps every bucket a proper list |
| `BufferCache.OkStep` | utils/dfs/buf.c:73-162 | a step that places one buffer right again keeps the whole pool right |
| `BufferCache.ContentStep` | utils/dfs/buf.c:96-162 | a step keeps all logical content if it keeps that of the blocks the one buffer caches |
| `BufferCache.EvictCleanOk` | utils/dfs/buf.c:246-262 | evicting a clean buffer keeps the pool and the content of every block |
| `BufferCache.EvictDirtyOk` | utils/dfs/buf.c:264-280 | evicting a dirty buffer, written out first, keeps the pool and the content of every block |
| `BufferCache.BufferPool.constructor` | utils/dfs/buf.c:287-342 | all buffers start on the free list and the content is the device's |
| `BufferCache.BufferPool.RemoveFromHashtable` | utils/dfs/buf.c:84-94 | all buckets are proper lists again, and of all bucket members exactly this buffer is gone |
| `BufferCache.BufferPool.InsertIntoHashtable` | utils/dfs/buf.c:73-82 | all buckets are proper lists, and exactly this buffer has joined, in the bucket of its block number |
| `BufferCache.SlotsSpread` | utils/dfs/buf.c:46-49 | as many neighbouring blocks as there are buckets go to different ones |
| `BufferCache.BufferPool.LookupBuffer` | utils/dfs/buf.c:96-162 | finds the one buffer that caches the block, takes it off its list, locks it once more; content is kept, except that an invalid buffer comes back zeroed |
| `BufferCache.BufferPool.GetNewBuffer` | utils/dfs/buf.c:227-285 | the head of the free list, else of the clean list, else of the dirty list written out first; fails exactly if every buffer is locked; content is kept |
| `BufferCache.BufferPool.GetBuffer` | utils/dfs/buf.c:351-373 | returns a buffer with exactly one lock more whose data is the block's content afterwards; that is the content before if and only if the cached copy is not marked invalid or the device holds zeros, else zeros; other content is kept; fails exactly if the block is not cached and all buffers are locked |
| `BufferCache.GetInvalidAgain` | utils/dfs/buf.c:96-162 | a block got, marked invalid and got again before its release reads as zeros, though the device holds something else |
| `CacheRuns.Serve` | utils/dfs/buf.c:96-505 | one request of any kind on a valid pool: refused exactly if illegal, otherwise its effect on the buffers and on the content of every block; the pool stays valid |
| `CacheRuns.ServeAll` | utils/dfs/buf.c:96-505 | over every sequential run of gets, allocs, writes, marks, releases, invalidations and flushes whose callers mark what they changed, the pool is in order in every state |
| `CacheRuns.Transparent` | utils/dfs/buf.c:96-505 | cache transparency over every run: in every state each block contains what it was given last, by writing, zeroing, reviving or throwing away, whatever was evicted or flushed in between |
| `CacheRuns.ReadsLast` | utils/dfs/buf.c:351-373 | get_buffer returns what the block contains from then on; that is what it was given last before, exactly if its cached copy is not invalid or the device has zeros |
| `CacheRuns.FlushedLast` | utils/dfs/buf.c:482-505 | after a flush the device holds what each block was given last, for every block that no locked buffer caches |
| `CacheRuns.NeverInvalid` | utils/dfs/buf.c:96-505 | in a run that throws nothing away no copy is ever invalid, so that only writing and alloc_buffer give a block anything |
| `CacheRuns.RunFresh` | utils/dfs/buf.c:287-342 | runs start from a new pool, where each block contains what is on the device |
| `HeldBuffers.GotBlock` | utils/dfs/buf.c:351-402 | getting or allocating a block in a pool whose locked buffers are all marked: refused exactly if all buffers are locked, otherwise the block as the store has it, or zeros, one lock more, and no other change |
| `HeldBuffers.FlushedBlocks` | utils/dfs/buf.c:482-505 | a flush puts every block on the device that is not in a buffer left locked, and changes no content and no lock |
| `HeldBuffers.Take` | utils/dfs/buf.c:351-402 | the same for the real pool |
| `HeldBuffers.Put` | utils/dfs/buf.c:404-410 | writing and marking the buffer in hand changes exactly its block, and the pool may be left so |
| `HeldBuffers.LetGo` | utils/dfs/buf.c:420-467 | releasing a buffer that is marked, or as on the device, takes back exactly one lock and changes no content |
| `HeldBuffers.ReadBlock` | utils/dfs/inode.c:45-47 | get, use, release reads the store and leaves content and locks as they were |
| `CachedTree.Lookup` | utils/dfs/inode.c:33-53 | get_inode_block with a get and a release for each level returns the entry of the block sequence and leaves content and locks as they were |
| `CachedTree.RootPage` | utils/dfs/inode.c:82-97 | a new root page is allocated in the cache, zeroed, and stays in hand |
| `CachedTree.NextPage` | utils/dfs/inode.c:99-121 | one step down: the cache changes as the tree does; a page added below this one stays in hand and this one stays locked, which is one lock more exactly if the page is new; otherwise this one is released |
| `CachedTree.NewAtIs` | utils/dfs/inode.c:99-121 | a page on the path of the next block is missing exactly if all lower digits of the block index are 0 |
| `CachedTree.LeafEntry` | utils/dfs/inode.c:123-137 | the entry in the leaf page, held or got, is written, marked and released |
| `CachedTree.SetInodeBlock` | utils/dfs/inode.c:55-141 | the whole call: store and cache change together, the locks left are as many as pages were added below others, and they are on pages above the leaf pages; from a pool nobody holds a buffer of, nobody does afterwards if and only if the depth is below 2 or the block index is no multiple of B |
| `CachedTree.LocksLeftZero` | utils/dfs/inode.c:107-114 | no page is added below another if and only if the depth is below 2 or the block index is no multiple of B |
| `CachedTree.IncreaseDepth` | utils/dfs/inode.c:226-250 | the new root page is written through the cache and released |
| `CachedTree.ExpandInode` | utils/dfs/inode.c:219-254 | expand_inode through the cache: store and cache change together, and the locks left are those of the append at the new depth |
| `CachedFile.ChangeBlock` | utils/dfs/file.c:351-362 | getting a block, or allocating it for a whole one, patching, marking and releasing it changes the content exactly as the patch changes the store, with no lock left |
| `CachedFile.ReadChunk` | utils/dfs/file.c:283-315 | one iteration of dfs_read through the cache |
| `CachedFile.Read` | utils/dfs/file.c:275-318 | dfs_read through the cache returns the slice of the file, also in a pool with buffers left locked; it fails only if all are |
| `CachedFile.BlockFor` | utils/dfs/file.c:342-349 | finding or appending the block through the cache, with the locks that leaves |
| `CachedFile.PatchBlock` | utils/dfs/file.c:351-372 | the chunk goes into the file and into the cache alike |
| `CachedFile.WriteChunk` | utils/dfs/file.c:334-373 | one iteration of dfs_write through the cache |
| `CachedFile.Write` | utils/dfs/file.c:320-377 | dfs_write through the cache: file, store and cache content change together in every iteration; the number of locks left is that of the pages added below pages by all its appends, and they are on pages above the leaf pages; it runs out of buffers only if there are no more than the locks |
| `CachedFile.LocksAfterZero` | utils/dfs/inode.c:107-114 | a series of appends leaves no lock if and only if none of them meets depth 2 or more and a multiple of B |
| `CachedFile.FirstLockLeft` | utils/dfs/inode.c:107-114 | a file written from empty leaves no buffer locked if and only if it has at most 16 * B blocks |
| `CachedFile.BytesOnDevice` | utils/dfs/file.c:320-377 | a device that has all blocks but pages above the leaf pages has every byte of the file |
| `CachedFile.WriteAndFlush` | utils/dfs/file.c:320-377 | after a write and a flush the device has all the file's bytes and every block that no buffer left locked caches; nobody holds a buffer, and the device has the whole store, if and only if no append added a page below another |
| `CachedFile.WriteFlushRead` | utils/dfs/file.c:275-377 | what was written and flushed is read back through a new cache over the same device, if no append added a page below another |
| `BufferCache.BufferPool.AllocBuffer` | utils/dfs/buf.c:375-402 | the same with a zeroed buffer instead of a read |
| `BufferCache.BufferPool.Fill` | utils/dfs/file.c:358-358 | what the holder of a lock writes becomes the content of its block at once, and of no other |
| `BufferCache.BufferPool.MarkBufferUpdated` | utils/dfs/buf.c:404-410 | the buffer's data becomes the content of its block |
| `BufferCache.BufferPool.MarkBufferInvalid` | utils/dfs/buf.c:412-418 | the content of its block falls back to the device |
| `BufferCache.BufferPool.ReleaseBuffer` | utils/dfs/buf.c:420-467 | the last release files the buffer under clean, dirty or free by its state; the pool stays valid, and all content with it, if and only if a changed buffer was marked; the panic is unreachable for a holder |
| `BufferCache.BufferPool.InvalidateBuffer` | utils/dfs/buf.c:469-480 | pending data of that block alone is forgotten |
| `BufferCache.BufferPool.FlushBuffers` | utils/dfs/buf.c:482-505 | content is unchanged and afterwards the device holds the content of every block no locked buffer caches |
| `VmdkImage.LocFilled` | utils/dfs/vmdk.c:270-293 | allocating a cluster for one grain sets its location to the old end of file and keeps every other grain's |
| `VmdkImage.FilledOk` | utils/dfs/vmdk.c:270-293 | allocation keeps the metadata invariant: clusters disjoint from each other and from metadata, header and directories intact, room at 32-bit offsets for all clusters still to come |
| `VmdkImage.FilledTidy` | utils/dfs/vmdk.c:270-293 | and it keeps an image tidy: primary and backup tables agree, length = first cluster + clusters * size |
| `VmdkImage.RoomForCluster` | utils/dfs/vmdk.c:272-280 | while a grain is unallocated the new offset fits 32 bits, so the cast loses nothing |
| `VmdkImage.FilledContent` | utils/dfs/vmdk.c:270-293 | allocation does not change what any sector reads |
| `VmdkImage.PutOk` | utils/dfs/vmdk.c:350-362 | writing data inside a cluster keeps the metadata invariant and tidiness |
| `VmdkImage.PutContent` | utils/dfs/vmdk.c:350-362 | exactly the written sectors of the virtual disk change |
| `VmdkImage.MaskIsModulo` | utils/dfs/vmdk.c:314-366 | the mask in vmdk_write and the remainder in vmdk_read agree on every sector if and only if the cluster size is a power of two |
| `VmdkImage.ParseFrame` | utils/dfs/vmdk.c:146-217 | what vmdk_open reads depends only on the header sector and the two directories |
| `VmdkImage.TablesCover` | utils/dfs/vmdk.c:180-181 | the directory size covers every sector of a capacity below 2^31 for every table size, and its last entry is needed |
| `VmdkImage.ParsedCovers` | utils/dfs/vmdk.c:172-205 | an opened image has a directory entry for every sector of its capacity and no more |
| `VmdkDevice.LeastUsed` | utils/dfs/vmdk.c:248-258 | the victim is the first slot with the least hit count; one always exists |
| `VmdkDevice.HitsCounted` | utils/dfs/vmdk.c:232-243 | over any series of hits short of saturation each slot's count grows by the number of its hits |
| `VmdkDevice.HitKeepsOrder` | utils/dfs/vmdk.c:236-241 | halving at saturation keeps the order of the counts |
| `VmdkDevice.HitOk` | utils/dfs/vmdk.c:234-243 | counts stay below 0xffffffff, with all halved before one saturates |
| `VmdkDevice.LoadedOk` | utils/dfs/vmdk.c:259-265 | loading a table into the victim's slot keeps the cache: copies equal the file, no table twice |
| `VmdkDevice.EnteredOk` | utils/dfs/vmdk.c:270-293 | after an allocation the cached copy still equals the table on file, and so do all others |
| `VmdkDevice.Device.constructor` | utils/dfs/vmdk.c:146-217 | opening any image that meets the invariant, also one already written to, yields a valid device over the same file |
| `VmdkDevice.Device.LoadTable` | utils/dfs/vmdk.c:231-265 | the slot holds the table as it is on file; a hit counts and changes nothing else, a miss replaces a slot with the least count, which starts at 1 |
| `VmdkDevice.Device.GetClusterOffset` | utils/dfs/vmdk.c:219-297 | the grain's location, 0 exactly if the directory does not reach it or nothing is allocated and nothing is to be; no sector's content changes |
| `VmdkDevice.Device.Read` | utils/dfs/vmdk.c:314-342 | the sectors of the virtual disk, across cluster boundaries, zeros where nothing was written; the file is unchanged |
| `VmdkDevice.Device.Write` | utils/dfs/vmdk.c:344-366 | for every cluster size, the chunks land where the masked offsets say, up to the first sector the directory does not reach; for powers of two the data replaces exactly the sectors it covers |
| `VmdkDevice.StoresFlat` | utils/dfs/vmdk.c:344-366 | for power-of-two clusters the chunks together replace exactly the sectors done, all reached, and stop at the first not reached |
| `VmdkDevice.WritesFlatExactly` | utils/dfs/vmdk.c:314-366 | writes behave like a flat disk, for every disk and every request, if and only if the cluster size is a power of two, on images that reach beyond their first cluster |
| `VmdkDevice.WriteGoesAstray` | utils/dfs/vmdk.c:314-366 | concrete image with clusters of three sectors: what is written to sector 3 is read back at sector 5, and sector 3 stays blank |
| `VmdkDevice.DirectorySizes` | utils/dfs/vmdk.c:406-418 | vmdk_create's table count equals the L1 size vmdk_open computes, and its directory fills whole sectors |
| `VmdkDevice.CreatedLayout` | utils/dfs/vmdk.c:398-433 | by position, what the header of a new image says: the parts follow each other without a gap, the clusters start at the next grain, there are as many tables as cover the disk and directories of their size |
| `VmdkDevice.FreshPlaced` | utils/dfs/vmdk.c:406-418 | the layout of a new image keeps header, directories and tables apart and below 2^23 sectors for every capacity below 2^31 |
| `VmdkDevice.WriteDirectory` | utils/dfs/vmdk.c:439-453 | the loop writes the arithmetic sequence of table offsets and touches nothing else |
| `VmdkDevice.Create` | utils/dfs/vmdk.c:368-469 | over any previous file: parses to the intended geometry, reaches its whole capacity, and holds in every sector the header, directories, descriptor or what was there; all sectors read as zeros if and only if no non-zero word where the tables go points at a sector that will not be blank; every read succeeds if and only if none points out of the file; it is a new image exactly if the tables' place was blank and there is room |
| `VmdkDevice.ReadsZeros` | utils/dfs/vmdk.c:368-469 | those two conditions, on the previous file, the capacity and the descriptor alone |
| `VmdkDevice.RemadeOk` | utils/dfs/vmdk.c:396-469 | creating over an image of the same capacity keeps its invariant, its tidiness and the content of every sector |
| `VmdkDevice.CreateTwice` | utils/dfs/vmdk.c:396-469 | concrete run: create, write the first sector, create again, and the sector still reads as written |
| `VmdkDevice.Serve` | utils/dfs/vmdk.c:314-366 | every sequence of reads and writes on a valid device is answered as a flat sector array would, and keeps a tidy image tidy |
| `VmdkDevice.CreateAndServe` | utils/dfs/vmdk.c:146-469 | every run of in-range requests on an image made over a missing file, or any file blank where the tables go, is answered like a zero-filled flat disk |
| `VmdkDevice.CreateOverAndServe` | utils/dfs/vmdk.c:146-469 | made over an image of the same capacity, every run is answered like a flat disk that starts with that image's content |
| `CriticalSection.InitInv` | utils/sow/sow.c:1837-1843 | mkcs establishes the invariant for any number of threads |
| `CriticalSection.NextInv` | utils/sow/sow.c:1850-1877 | every atomic action of every thread keeps it: count + 1 threads are inside or waiting, and if there are any exactly one is inside or on its way |
| `CriticalSection.MutualExclusion` | utils/sow/sow.c:1850-1877 | on every run at most one thread is past enter and before leave's decrement |
| `CriticalSection.RecursionOfHolder` | utils/sow/sow.c:1850-1877 | the recursion count is the nesting depth of the thread inside, although it is read and written in separate actions |
| `CriticalSection.NoLostSet` | utils/sow/sow.c:1865-1877 | whoever sets the event finds it reset and a waiter exists, so no set is lost |
| `CriticalSection.BlockedHasCause` | utils/sow/sow.c:1850-1877 | while a thread is blocked there is exactly one thread inside, pending set or set event |
| `CriticalSection.WaiterGetsIn` | utils/sow/sow.c:1850-1877 | from every reachable state each blocked thread gets in once the one active thread has left, whatever its nesting, without other threads moving |
| `CriticalSection.Returns` | utils/sow/sow.c:1850-1877 | on every run, with calls read off the run: an enter that returns leaves the thread owner and inside once more; a leave of a thread inside leaves it inside once less, and owner exactly if still inside; a leave of a thread outside changes nothing |
| `CriticalSection.EntersAlone` | utils/sow/sow.c:1850-1863 | from every reachable state in which nobody is inside or waiting, or the thread is inside itself, its enter alone takes the section in four actions |
| `CriticalSection.LeavesAlone` | utils/sow/sow.c:1865-1877 | from every reachable state the owner's leave alone returns in at most six actions; a section given up is free, or its event is set exactly if somebody waits |
| `HashTable.MaskedStart` | src/bin/as/hashtbl.c:47-56 | the masked position and stride are the remainders, for power-of-two sizes |
| `HashTable.OddCancels` | src/bin/as/hashtbl.c:47-56 | a power of two that divides d times an odd number divides d |
| `HashTable.ProbesDistinct` | src/bin/as/hashtbl.c:47-56 | an odd stride does not return to a slot within size probes |
| `HashTable.ProbesCover` | src/bin/as/hashtbl.c:47-56 | the first size probes visit every slot |
| `HashTable.FreeOnPath` | src/bin/as/hashtbl.c:95-99 | a table that is not full has a free slot on every probe path, so every probe loop ends |
| `HashTable.Missing` | src/bin/as/hashtbl.c:95-107 | meeting a free slot first proves that the key is absent |
| `HashTable.Inserted` | src/bin/as/hashtbl.c:142-153 | filling the free slot of a failed search keeps every entry reachable through occupied slots of its own path and adds exactly one mapping |
| `HashTable.FreeSlot` | src/bin/as/hashtbl.c:167-174 | the rehash probe finds the first free slot of a path |
| `HashTable.Rehash` | src/bin/as/hashtbl.c:155-184 | growth keeps the map and the load and follows the new node to its new slot |
| `HashTable.Table.constructor` | src/bin/as/hashtbl.c:64-71 | a new table maps nothing |
| `HashTable.Table.Find` | src/bin/as/hashtbl.c:85-138 | succeeds exactly if the key is mapped and returns the slot with its data; otherwise a valid insertion point |
| `HashTable.Table.Add` | src/bin/as/hashtbl.c:142-188 | the map gains exactly the new mapping, the load stays at most half, and the result is the new node's slot even when the table grew |
| `HashTable.FindOrAdd` | src/bin/as/hashtbl.c:85-188 | any sequence of find-or-add requests on any table: the map is the old one with each new key mapped to the data of its first request, and each answer is the data mapped then |
| `HashTable.FirstWins` | src/bin/as/hashtbl.c:85-188 | from an empty table, a key of a series of requests maps to the data of the first request for it |
| `HashTable.OnlyEntered` | src/bin/as/hashtbl.c:85-188 | from an empty table, a key is mapped if and only if it was asked for |
| `HashTable.Table.Iterate` | src/bin/as/hashtbl.c:195-222 | the next occupied slot, or none exactly if the rest is empty |
| `DebugLink.RoundTrip` | utils/dbggw/rdp.c:84-160 | for every byte string the decoder on the encoding followed by any suffix returns the string and stops at the suffix |
| `DebugLink.DecodeRun` | utils/dbggw/rdp.c:128-160 | an escape, a byte and a count stand for that many of the byte, 256 for a count of 0 |
| `DebugLink.RunLength` | utils/dbggw/rdp.c:84-122 | n equal bytes take three bytes for every 256 and for the rest, or the rest as it is if that is shorter |
| `DebugLink.EncodeNoLonger` | utils/dbggw/rdp.c:84-122 | bytes without escapes never take more room encoded |
| `DebugLink.Session.SendRle` | utils/dbggw/rdp.c:84-122 | the pointer loop emits exactly the encoding; runs of 256 as 0, escapes always escaped |
| `DebugLink.Session.RecvRle` | utils/dbggw/rdp.c:128-160 | on every stream that lasts, the bytes written with the unsigned count; exactly len of them, and then the decoded ones, if and only if no run goes past the end |
| `DebugLink.WrittenExactly` | utils/dbggw/rdp.c:128-160 | a run past the end makes the receiver, if the stream lasts, write at least 2^32 bytes more; otherwise it writes what the stream stands for |
| `DebugLink.RunPastEnd` | utils/dbggw/rdp.c:128-160 | concrete stream: a run of 3 with 2 bytes left writes 3 and goes on with 2^32-1 left |
| `DebugLink.SumZero` | utils/dbggw/rdp.c:166-221 | with the sent checksum a packet sums to zero exactly if the received payload has the sent byte sum |
| `DebugLink.SumIsTotal` | utils/dbggw/rdp.c:179-184 | the checksum in unsigned chars is the plain sum of the bytes modulo 256 |
| `DebugLink.PacketBytes` | utils/dbggw/rdp.c:166-188 | the bytes of a packet by position: signature, command, id, a byte that makes header and payload add up to a multiple of 256, the length with the lowest byte first, the encoded payload |
| `DebugLink.ReceiveReads` | utils/dbggw/rdp.c:194-221 | what the receiver makes of any stream, by position: length over the limit -1, else the bytes written, and -2 unless header and payload add up to a multiple of 256 |
| `DebugLink.AcceptedIff` | utils/dbggw/rdp.c:194-221 | a payload of the announced length is accepted if and only if the byte sums agree, otherwise -2 |
| `DebugLink.PacketReceived` | utils/dbggw/rdp.c:166-221 | a sent packet is received as sent, after any noise without a signature byte, and the rest of the stream is left alone |
| `DebugLink.OneByteRefused` | utils/dbggw/rdp.c:166-221 | changing exactly one payload byte gives -2 |
| `DebugLink.TooLongRefused` | utils/dbggw/rdp.c:210-210 | a packet longer than the buffer gives -1 |
| `DebugLink.Resync` | utils/dbggw/rdp.c:200-204 | bytes before the signature are skipped |
| `DebugLink.Session.SendPacket` | utils/dbggw/rdp.c:166-188 | header, negated checksum and encoded payload are sent as specified |
| `DebugLink.Session.RecvPacket` | utils/dbggw/rdp.c:194-221 | the receiver's loops compute exactly the specified reply and consume exactly its bytes, on every stream that lasts |
| `ExprVector.AddVectors` | src/bin/as/eval.c:130-167 | the three merging loops compute the merge of the terms in front of far-absolute ones; those are kept, and then the meanings add up, exactly if one side is a number; the sum stops at a forward reference exactly if both sides have terms from there on |
| `ExprVector.MergeGood` | src/bin/as/eval.c:130-167 | the merge of sorted vectors is strictly sorted by type |
| `ExprVector.MergeMeaning` | src/bin/as/eval.c:130-167 | adding vectors adds what they stand for, modulo 2^64, under every assignment |
| `ExprVector.MergeNoZeros` | src/bin/as/eval.c:149-155 | terms that cancel out are gone |
| `ExprVector.ScalarMult` | src/bin/as/eval.c:184-198 | rewriting in place multiplies every coefficient in front of a far-absolute part and cuts that off |
| `ExprVector.ScaleMeaning` | src/bin/as/eval.c:184-198 | scaling multiplies what a vector stands for, modulo 2^64 |
| `ExprVector.IsSimple` | src/bin/as/exprlib.c:46-60 | true if and only if all terms but the number are zero, or all but a nonzero number and far-absolute terms |
| `ExprVector.IsReallySimple` | src/bin/as/exprlib.c:66-80 | the same, with far-absolute terms counting as terms |
| `ExprVector.ScalarIffConstant` | src/bin/as/exprlib.c:66-80 | that is so if and only if the form has one value under all assignments |
| `ExprVector.ScalarMeaning` | src/bin/as/exprlib.c:143-153 | the number of a scalar vector is its value under every assignment |
| `ExprVector.RelocValue` | src/bin/as/exprlib.c:143-153 | the number of a vector without register terms, else 0 |
| `ExprVector.IsReloc` | src/bin/as/exprlib.c:86-116 | true if and only if there is no register term and besides the number and a WRT at most one segment base, with factor 1 |
| `ExprVector.RelocSeg` | src/bin/as/exprlib.c:159-172 | for such a vector the segment of that base, or NO_SEG |
| `Evaluator.ValueMeaning` | src/bin/as/eval.c:540-830 | the vector built for an expression has, under every assignment to registers and segment bases, the expression's value modulo 2^64 |
| `Evaluator.ValueDefined` | src/bin/as/eval.c:540-830 | an expression has a vector if and only if every symbol is known, ~ and ! are applied to forms of one value, one factor of each product is such a form, and such forms are divided by such forms other than 0 |
| `Evaluator.Divides` | src/bin/as/eval.c:603-616 | / and % are the quotient and the remainder of unsigned division |
| `Evaluator.DividesSigned` | src/bin/as/eval.c:617-630 | // and %% are those of signed division toward zero |
| `Evaluator.SignedMeans` | src/bin/as/eval.c:617-630 | the signed reading has the same residue and is within 64 bits |
| `Evaluator.ParsesGrammar` | src/bin/as/eval.c:265-290 | the parser reads an expression off a text if and only if the grammar generates that part from it and no operator follows |
| `Evaluator.MultiplyMeaning` | src/bin/as/eval.c:565-634 | the same for products, quotients and remainders, including when they are refused |
| `Evaluator.PrintParse` | src/bin/as/eval.c:540-830 | every expression has a text, printed with the fewest parentheses, which is read back |
| `Evaluator.Parser.Expr4` | src/bin/as/eval.c:540-563 | parsing and adding in one pass yields the vector of the parsed expression, or an error exactly if the text or an operand is refused |
| `Evaluator.Parser.Expr5` | src/bin/as/eval.c:565-634 | the same for multiplying operators |
| `Evaluator.Parser.Expr6` | src/bin/as/eval.c:735-901 | the same for signs, complement, negation, parentheses, numbers, registers and labels |
| `Evaluator.Operate` | src/bin/as/eval.c:575-632 | the switch over multiplying operators, with its scalar and zero tests |
| `Evaluator.Parser.Evaluate` | src/bin/as/eval.c:911-945 | accepts exactly the texts whose expression is defined; the result is sorted, and under every assignment it has the value of the expression that was read |
| `Archive.EntryAtPosition` | src/bin/ar/ar.c:454-478 | at its position the written file holds the entry's header and contents |
| `Archive.EvenPositions` | src/bin/ar/ar.c:454-478 | entries start at even places with at most one byte of padding between |
| `Archive.OffsetIsPosition` | src/bin/ar/ar.c:423-431 | the offsets computed beforehand are the positions in the written file |
| `Archive.ComputeOffsets` | src/bin/ar/ar.c:423-431 | the loop that rounds the running offset computes them |
| `Archive.TableFills` | src/bin/ar/ar.c:412-444 | the symbol table fills its computed size exactly |
| `Archive.BigEndianSpells` | src/bin/ar/ar.c:434-440 | index words are numbers with the highest byte first |
| `Archive.SymbolLookup` | src/bin/ar/ar.c:423-444 | for every symbol the index word of the written table leads to the header of its entry in the written file, and the k-th name is its name |
| `Archive.Writer.BuildSymbolTable` | src/bin/ar/ar.c:403-452 | stores the table as first entry under an empty name, with a header that gives its size, and every offset equal to the final position |
| `Archive.Writer.WriteArchive` | src/bin/ar/ar.c:454-478 | writes the magic and the padded entries, for any number and parity of entries |
| `Archive.SizeRoundTrip` | src/bin/ar/ar.c:377-379 | a decimal size followed by blanks reads as itself, 0 included |
| `Archive.ZeroPadded` | src/bin/ar/ar.c:379-379 | a size printed behind k zeros reads as itself if and only if k is 0 or the size is below 8; otherwise its digits up to the first 8 or 9 are read as octal |
| `Archive.LeadingZeroIsOctal` | src/bin/ar/ar.c:379-379 | for example 010 reads as 8 |
| `Archive.IsTableName` | src/bin/ar/ar.c:371-383 | true if and only if the first 16 bytes, cut at the trailing blanks and then at the first NUL, are exactly a slash |
| `Archive.ReadArchive` | src/bin/ar/ar.c:355-401 | the reading loop computes the specified entries or error |
| `Archive.ReadWritten` | src/bin/ar/ar.c:355-478 | reading written bytes gives the same headers and contents in order, without symbol tables |
| `Archive.ReadExactly` | src/bin/ar/ar.c:355-401 | any file is read if and only if it is a series of whole headers, each at the even place behind the contents announced before, and then as the entries in it that are no tables |
| `Archive.BaseName` | src/bin/ar/ar.c:295-304 | what follows the last separator of a path |
| `Archive.FillHeader` | src/bin/ar/ar.c:290-329 | name, date, size and marker of a file's header for every file; the other fields if the owner ids have at most six digits |
| `Archive.FilledNames` | src/bin/ar/ar.c:290-329 | a file's header is taken for a symbol table if and only if its path is empty or ends in a separator |
| `Archive.WrittenAndRead` | src/bin/ar/ar.c:290-478 | files archived with a symbol table read back as they are if and only if no path is empty or ends in a separator |
| `Archive.OctalRead` | src/bin/ar/ar.c:321-322 | a mode printed in octal reads back |
| `Archive.TableDropped` | src/bin/ar/ar.c:355-478 | an archive that starts with an entry named / and 15 blanks, with printed size fields and other names behind, reads back as its other entries |

## Left out

- BlockDirectory.Inode.SetInodeBlock: models the append that expand_inode asks for, not storing a given block or overwriting an entry.
- BlockDirectory.Inode.GetInodeBlock: beyond the block count, indices whose root entry is missing are not modelled.
- BlockDirectory.Inode.ExpandInode: where a search for a page strays to a block in use, the program goes on and the model stops; what the tree is after that is not described.
- BlockDirectory.Inode.SplitLevels: uses unbounded numbers; shifts of 32 bits and more, for trees deeper than a 32-bit index can address, are not modelled.
- BlockDirectory.Inode.TruncateInode: states logical contents; that buffers of removed blocks are dropped from the cache is proved separately, for InvalidateBuffer.
- FileIO.File.Write: file sizes from 2^32 on, where the 32-bit size would wrap, are not modelled.
- BufferCache.BufferPool.GetBuffer: sequential use with immediate device transfers; waiting threads exist only in the Windows build. The 16-bit lock counter is unbounded here.
- Format.FormatAndServe: block and inode counts in whole bitmap words; other volumes can be misled, as NewBlock and NewInode say.
- CachedFile.Write: the buffers that hold the inode itself and the group descriptors and bitmaps, which the program keeps locked throughout, are not part of the pool here; a write that stops for want of a buffer or of disk space is not described further.
- CachedTree.SetInodeBlock: truncation through the cache is not modelled; InvalidateBuffer covers the buffers of removed blocks.
- Format.CreateFilesystem: volumes with a dropped tail are described by BuildGroups only; volumes whose first group does not hold its metadata or that have fewer than 16 inodes per group are excluded, as the program does not check for the former; zeroing the device and 32-bit overflow of the layout are not modelled.
- VmdkDevice.Device.Write: sector numbers below 2^31, successful host I/O, and a host that zero-fills a file extended past its end.
- VmdkDevice.Create: capacities below 2^31 sectors, as vmdk_open casts them to int; previous files of whole sectors; set_eof as on POSIX hosts, where it never shortens a file; version 3 images are not modelled.
- HashTable.Table.Find: the CRC and the case folding are parameters; the caller's writes through the returned pointer are not modelled.
- CriticalSection.NextInv: the counters are unbounded, and waitone is taken to return only when it consumed the event.
- DebugLink.Session.RecvRle: the bytes written are a sequence, so what lies behind the buffer is not modelled; a stream that ends too soon is left out, as dbg_recv waits for more.
- Evaluator.Parser.Evaluate: no forward references, WRT, SEG, far-absolute segments, float or string functions and no hints; operators looser than + and - are not modelled, so a parenthesis holds a sum; a signed division of -2^63 by -1 wraps.
- Archive.ReadArchive: a size field without sign; an allocation of 0 bytes is taken to succeed; offsets stay below 2^31.
- Archive.Writer.BuildSymbolTable: the extraction of symbols from ELF objects is an input; sizes and offsets are ints, below 2^31.
- Archive.FillHeader: dates, ids and sizes that are not negative ints, and modes of 16 bits.
- unlink_inode, link counts, get_inode and alloc_inode: bookkeeping around the modelled operations.
- utils/dfs/dir.c and path handling: record packing needs an assumption the code does not establish, and the rest would only add easy members.
- The i386 assembly bit operations, vmdk_is_allocated, hash_free and the session code of rdp.c: easy members or I/O.
- Everything else in the repository: kernel, libraries, other tools.
