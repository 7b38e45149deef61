# CosmOS storage and readiness core

This project models the parts of the CosmOS kernel that move, cache and name data, and proves what
they promise. Every module follows one component of the kernel:

- **Page cache.** `PageCache`, `PageFile`, `PageTruncate`, `PageFlush`, `PageLoad` and the mutable `PageMapping`
  class: pages with their state bits, the dirty set, batched write-back and truncation, one file operation at a
  time. `PageWriteback`, `PageSystem`, `PageWriters` and `PageRaces`: one mapping as a state machine at page-lock
  granularity, in which the steps of write calls, loads, reclaim and write-back interleave freely, with the
  condition under which every copy reaches the file. `PageReclaim` and `PageReclaimer` cover the inactive queue
  and reclaim episodes.
- **Block cache and ext4 adapter.** `BlockCache`, `BlockCacheManager` and `Ext4Adapter`: CLOCK eviction,
  miss-run batching and ranged overwrites refine a flat disk, and byte-addressed access refines that.
- **EasyFS.** `EasyBitmap`, `EasyTree`, `EasyInode`, `EasyVolume` and `EasyFs`: the first-fit bitmap, the
  direct, indirect and double-indirect tree, and a volume whose files are byte arrays.
- **POSIX record locks.** `PosixLocks`: the interval table implements a map from owners and bytes to locks.
  `LockCalls`: the ranges the system call can ask for, and the callers that wait, event by event.
- **Readiness.** `PollRegistry` (the ppoll matrix), `Epoll` (epoll over eventfds) and `EpollUser` (epoll as its user sees it).
- **FAT32.** `FatChains`, `FatFiles`, `FatNames` and `FatShortNames`: mirrored tables, cluster chains, files as
  byte arrays, long and short names.
- **Name cache.** `DentryCache`: positive and negative entries over any backend.
- **Arithmetic cores.** `CivilDate` (in `T.dfy`), `BootRegions` and `Dirents`. `Basics` and `Bytes` hold what they share.

State that the kernel updates in place is a class whose methods are proved against functions on plain
values; what the kernel promises is proved about those functions, step by step and over whole runs.

Four promises turned out not to hold for all inputs. Each has the exact condition under which the code
keeps it and a concrete case in which it does not:

- A buffered write can be lost to what runs beside it. A copy overlays the file if and only if it goes to a linked
  page that was loaded or of which the inode holds nothing else (`PageSystem.CopyExact`). With one write call at a
  time, no reclaim of the page in hand and no copy into a page being loaded, that is always so
  (`PageWriters.NoWriteIsLost`), and none of the three can be spared: `PageRaces.OverlapLoses`,
  `PageRaces.ReclaimLoses` and `PageRaces.LoadLoses` are runs that lose bytes.
- A buffered write that leaves a gap does not revisit the old tail page. All reads stay exact if and only if no
  up-to-date page below the written range is partly filled (`PageFile.WriteKeepsReads`); one byte written at
  5000 after a file of 100 bytes leaves a read without progress (`PageFile.GapWriteStopsReads`).
- Truncation has two similar short-page cases, and `PageTruncate.TruncateKeepsReads` names them exactly. Both
  can follow a page fault, whose window is not clipped to the file (`PageTruncate.ExtendStopsReads`) and leaves
  a page that the inode does not reach yet unloaded (`PageTruncate.ShrinkShortensReads`).
- A rename between two links of one inode leaves a wrong negative entry, and over ext4 only such a rename does
  (`DentryCache.RenameExact`, `DentryCache.SameInodeRenameStale`). The case arises only past the guard of rename
  by path, which ends the call when the two inode numbers are equal (`DentryCache.Vfs.RenameAt`): in a race
  between that guard and the rename, or in a direct call.

The lock functions would also mistake an empty range for a conflict, but no system call can ask for one, so
that requests are refused exactly for real conflicts (`LockCalls.RefusedExact`).

Numbers are unbounded unless a width matters, and then the width is written out: 64-bit lock ends and event
counters, 28-bit FAT entries, 16-bit record lengths, 32-bit block numbers, 8-bit checksums and key generations.
The inode, the block device, the backend of the name cache, signals and timers are values or parameters.

## Model

| member | source | states |
|---|---|---|
| PageWriters.NoWriteIsLost | os/src/fs/page_cache.rs:1421-1477 | while write calls come one at a time, reclaim leaves the page in hand alone and no copy goes to a page being loaded: after any interleaving of their steps with loads, reclaim and write-back phases, with complete, short and failed device writes, `dirty_pages` is exactly the set of DIRTY pages, the retained flag is set exactly when it is non-empty, every page that is not DIRTY agrees with the inode, the file is what the calls wrote, and once nothing is retained the inode holds it |
| PageWriters.SerialRun | os/src/fs/page_cache.rs:1449-1457 | under those conditions every copy of every run reaches the file |
| PageWriters.BlankIsEmpty | os/src/fs/page_cache.rs:1449-1457 | a lone write call that skips loading a page finds nothing of that page on the inode beside what it writes |
| PageWriters.SerialStep | os/src/fs/page_cache.rs:1421-1477 | every step keeps at zero, on the inode, in the cache and in flight, what was past the old end and the call has not written |
| PageSystem.LandedIsKept | os/src/fs/page_cache.rs:1421-1477 | the same result for any number of overlapping write calls, as long as every copy lands: on a linked page that is not being evicted or loaded, and that was loaded or of which the inode holds nothing else |
| PageSystem.CopyExact | os/src/fs/page_cache.rs:1441-1474 | a copy overlays the file if and only if it goes to a linked page that was loaded or of which the inode holds nothing else, or stores bytes the file has already |
| PageWriteback.BlankSafe | os/src/fs/page_cache.rs:1449-1470 | a copy that skips the load keeps pages, flights and length consistent, and overlays the file if and only if the inode has no other byte of that page |
| PageRaces.OverlapLoses | os/src/fs/page_cache.rs:1431-1457 | two overlapping write calls of which one found the file empty: its copy into a fresh page erases what the other stored, on the inode too |
| PageRaces.ReclaimLoses | os/src/fs/page_cache.rs:1444-1474 | a page reclaimed between lookup and copy: the bytes are lost and the dirty set names a page that is not there |
| PageRaces.LoadLoses | os/src/fs/page_cache.rs:1451-1457 | a whole-page write during a load of that page: the load stores the old bytes over it |
| PageRaces.RedirtyRun | os/src/fs/page_cache.rs:2262-2297 | bytes stored between the capture of their page and the completion: the device gets the old bytes and the completed page is dirty again |
| PageSystem.RunSafe | os/src/fs/page_cache.rs:1421-1477 | every run whose copies land keeps the system invariant, and the file seen through the cache is the fold of the user-visible meaning of its steps |
| PageSystem.StepSafe | os/src/fs/page_cache.rs:1421-1477 | each such step keeps the invariant; only raising the size and copying change the file |
| PageSystem.MeasureSafe | os/src/fs/page_cache.rs:1459-1460 | a write call may read the size long before it copies |
| PageSystem.EndLoadSafe | os/src/fs/page_cache.rs:1713-1795 | the end of a load changes no byte of the file, even with an older size in hand |
| PageSystem.UnlinkSafe | os/src/fs/page_cache.rs:2550-2570 | unlinking a marked page, in a step of its own, changes no byte of the file |
| PageWriteback.CopySafe | os/src/fs/page_cache.rs:1459-1474 | copying into a loaded page overlays exactly those bytes of the file, even while the page is being written back and with an older size in hand |
| PageWriteback.TakeSafe | os/src/fs/page_cache.rs:2155-2183 | taking a page for write-back captures its bytes and changes nothing the user sees |
| PageWriteback.WriteBatchSafe | os/src/fs/page_cache.rs:2208-2260 | one device write for a run of captured pages, complete or cut anywhere, never changes the file |
| PageWriteback.WriteLiveSafe | os/src/fs/page_cache.rs:2301-2383 | the single-page path writes the live frame and keeps the same promises |
| PageWriteback.CompleteSafe | os/src/fs/page_cache.rs:2262-2298 | completion clears DIRTY only for a page that was written in full and not redirtied since |
| PageWriteback.BatchLandsAt | os/src/fs/page_cache.rs:2155-2206 | inside a batch every page lands at its own file position |
| PageWriteback.CleanIsStored | os/src/fs/page_cache.rs:2043-2052 | with nothing dirty and no writer at work the inode holds the file byte for byte, length included |
| PageSystem.DropInodeSafe | fs/src/inode_cache.rs:163-203 | inode reclaim, which skips retained inodes, can drop the mapping without losing a byte |
| PageFile.WriteOverlays | os/src/fs/page_cache.rs:1421-1477 | a buffered write at any offset overlays the file, zero-filling a gap |
| PageFile.SkippedLoad | os/src/fs/page_cache.rs:1449-1457 | where the write skips loading a page, loading it first would have given the same page |
| PageFile.ReadExact | os/src/fs/page_cache.rs:1318-1375 | a read returns the bytes of the file if and only if every up-to-date page it meets has enough valid bytes |
| PageFile.HitExact | os/src/fs/page_cache.rs:1387-1419 | the single-page fast path is exact under the same condition |
| PageFile.FullReadsExact | os/src/fs/page_cache.rs:1318-1375 | all reads return the bytes of the file if and only if every up-to-date page reaches the end of the file or of the page |
| PageFile.WriteKeepsReads | os/src/fs/page_cache.rs:1421-1477 | a write keeps all reads exact if and only if no up-to-date page below the one it starts on is partly filled, so every gap-free write does |
| PageFile.WriteKeepsFull | os/src/fs/page_cache.rs:1421-1477 | the same of the pages: they reach as far as the file after exactly those writes |
| PageFile.GapWriteStopsReads | os/src/fs/page_cache.rs:1336-1368 | a concrete gap write after which a read across the old tail page makes no progress |
| PageTruncate.TruncateResizes | os/src/fs/page_cache.rs:1480-1615 | truncation cuts the file or pads it with zeros and changes nothing else |
| PageTruncate.TruncateKeepsReads | os/src/fs/page_cache.rs:1480-1615 | truncation keeps all reads exact if and only if neither of two short-page cases arises: a partly loaded tail page on a shrink, an up-to-date page past the old end on an extension |
| PageTruncate.TruncateKeepsFull | os/src/fs/page_cache.rs:1480-1615 | the same of the pages |
| PageTruncate.ExtendStopsReads | os/src/fs/page_cache.rs:1595-1613 | a fault window loads a page past the end of a 100-byte file; after an extension to 5000 bytes a read across that page makes no progress |
| PageTruncate.ShrinkShortensReads | os/src/fs/page_cache.rs:1577-1592 | a fault window leaves a page of a sparse file unloaded; a shrink that ends in it marks it up to date, and a read of it returns nothing |
| PageFlush.BatchIsPageByPage | os/src/fs/page_cache.rs:2101-2260 | flushing a run page by page ends in exactly the state of one batched write: same inode bytes, page states and dirty set |
| PageFlush.FailedBatch | os/src/fs/page_cache.rs:2208-2260 | a batch cut short or failed leaves the file and the dirty set as they were |
| PageFlush.FlushAllSafe | os/src/fs/page_cache.rs:2301-2383 | flushing any list of pages changes no byte of the file |
| PageFlush.FlushAllDirty | os/src/fs/page_cache.rs:2262-2298 | after a flush a page is dirty if and only if it was and either is not in the list or is mapped |
| PageFlush.SyncStores | os/src/fs/page_cache.rs:2043-2052 | flushing every dirty page leaves the inode holding exactly the file, length and mapped pages included |
| PageFlush.FlushRunIsList | os/src/fs/page_cache.rs:2101-2122 | a run of adjacent pages is the list of its pages |
| PageLoad.PreloadSafe | os/src/fs/page_cache.rs:1798-1971 | loading a range in advance changes neither the file nor the exactness of reads |
| PageLoad.PreloadCovers | os/src/fs/page_cache.rs:1811-1860 | nor which reads have enough valid bytes |
| PageLoad.RunIsPageByPage | os/src/fs/page_cache.rs:1990-2022 | merging pages into one inode read gives each page the bytes and valid count it would get alone |
| PageLoad.RunLenExact | os/src/fs/page_cache.rs:1884-1890 | the one request asks for exactly the bytes that its pages hold |
| PageMapping.PageMapping.constructor | os/src/fs/page_cache.rs:194-202 | a new mapping shows the inode's contents and reads exactly |
| PageMapping.PageMapping.EnsureUptodate | os/src/fs/page_cache.rs:1713-1796 | loads a page that is not up to date, as the specification does |
| PageMapping.PageMapping.MarkPageDirty | os/src/fs/page_cache.rs:2024-2040 | marks a page dirty or, under write-back, redirtied, and keeps the dirty set and the retained flag in step |
| PageMapping.PageMapping.WriteChunk | os/src/fs/page_cache.rs:1442-1474 | one page of a buffered write |
| PageMapping.PageMapping.Write | os/src/fs/page_cache.rs:1421-1477 | the write loop overlays the file and returns the full length |
| PageMapping.PageMapping.LoadRange | os/src/fs/page_cache.rs:1811-1971 | loads the missing pages of a range run by run and nothing else |
| PageMapping.PageMapping.FinishRun | os/src/fs/page_cache.rs:1990-2022 | fills every page of a run from one inode read |
| PageMapping.PageMapping.ReadSinglePage | os/src/fs/page_cache.rs:1387-1419 | the fast path: a hit returns the bytes of the page |
| PageMapping.PageMapping.Read | os/src/fs/page_cache.rs:1318-1375 | the read loop returns exactly the file's bytes while pages are fully valid, and leaves the file alone |
| PageMapping.PageMapping.ReadWindow | os/src/fs/page_cache.rs:1336-1373 | one window of the read loop |
| PageMapping.PageMapping.Truncate | os/src/fs/page_cache.rs:1480-1615 | truncates in place: the file is cut or zero-padded |
| PageMapping.PageMapping.BeginWriteback | os/src/fs/page_cache.rs:2155-2183 | marks a page WRITEBACK |
| PageMapping.PageMapping.FinishWriteback | os/src/fs/page_cache.rs:2262-2298 | completes one page, keeping a redirtied one dirty |
| PageMapping.PageMapping.StoreToInode | os/src/fs/page_cache.rs:2345-2374 | the write to the inode, complete or cut, succeeds exactly when the inode takes every byte |
| PageMapping.PageMapping.FlushPage | os/src/fs/page_cache.rs:2301-2383 | flushes one page; succeeds exactly when there is nothing to write or the inode takes it all, and loses nothing on failure |
| PageMapping.PageMapping.CollectBatch | os/src/fs/page_cache.rs:2124-2206 | collects the longest run of adjacent dirty pages, at most 32, with their bytes |
| PageMapping.PageMapping.FlushBatch | os/src/fs/page_cache.rs:2208-2260 | writes a batch with one request and completes its pages by its outcome |
| PageMapping.PageMapping.FlushDirtyPages | os/src/fs/page_cache.rs:2101-2122 | flushes in batches without changing the file; after success a listed page is dirty exactly if it was and is mapped, and if every dirty page was listed the inode holds the file; after a failure the dirty set is that of a flushed prefix |
| PageReclaim.EpisodeFrees | os/src/fs/page_cache.rs:2409-2474 | an episode above the low watermark with some unpinned, unmapped, writable page in the queue frees a page before the deferred-pass limit |
| PageReclaim.EpisodeSpares | os/src/fs/page_cache.rs:2409-2581 | a whole episode, on every device: it drops only pages that at that moment nobody had pinned, mapped, loaded or was writing, that had used up their second chance, were clean and in place; pages in use keep every field; a page becomes clean only when the device took its bytes |
| PageReclaim.StepExact | os/src/fs/page_cache.rs:2500-2581 | a step looks at the first resident page of the queue and no other: it drops it if and only if nobody uses it, it is unreferenced, clean and not being dropped, with the exact outcome in every other case |
| PageReclaim.FreedInTime | os/src/fs/page_cache.rs:2512-2550 | in any series of steps, a page that is gone was free to go at the step that dropped it |
| PageReclaim.StepsCount | os/src/fs/page_cache.rs:2553-2575 | the counter falls by one for every page that goes |
| PageReclaim.AddedRoom | os/src/fs/page_cache.rs:719-766 | the counter stays the number of resident pages, and the queue never exceeds the compaction threshold |
| PageReclaim.ChangesCounted | os/src/fs/page_cache.rs:749-766 | pages that enter or leave the cache are counted one by one |
| PageReclaim.PassHopeful | os/src/fs/page_cache.rs:2476-2498 | a pass either frees a page or uses up a chance of that page |
| PageReclaim.PassTallies | os/src/fs/page_cache.rs:2476-2498 | the statistics of a pass account for every page it looked at, once each |
| PageReclaim.StepQueue | os/src/fs/page_cache.rs:2500-2581 | a reclaim step keeps every resident page queued exactly once |
| PageReclaim.EpisodeQueue | os/src/fs/page_cache.rs:2409-2474 | so does a whole episode, whose definition also shows that it terminates |
| PageReclaim.AddQueue | os/src/fs/page_cache.rs:749-766 | a new page is queued exactly once |
| PageReclaim.RemoveQueue | os/src/fs/page_cache.rs:1142-1175 | discarded pages only leave stale entries behind |
| PageReclaim.CompactCount | os/src/fs/page_cache.rs:719-747 | compaction drops stale and repeated entries and keeps one for each resident page |
| PageReclaim.CompactQueue | os/src/fs/page_cache.rs:719-747 | compaction keeps the queue invariant |
| PageReclaimer.Reclaimer.PopInactive | os/src/fs/page_cache.rs:768-781 | pops the first entry that is still resident |
| PageReclaimer.Reclaimer.EnqueueInactive | os/src/fs/page_cache.rs:749-766 | queues a page unless it is marked queued |
| PageReclaimer.Reclaimer.ReclaimOnePage | os/src/fs/page_cache.rs:2500-2581 | one step: second chance, write back, or evict |
| PageReclaimer.Reclaimer.RunPass | os/src/fs/page_cache.rs:2476-2498 | a pass of steps under a scan budget |
| PageReclaimer.Reclaimer.ReclaimToLowWatermark | os/src/fs/page_cache.rs:2409-2474 | passes until the watermark, a stop, or four passes of deferrals |
| PageReclaimer.Reclaimer.CompactInactive | os/src/fs/page_cache.rs:709-747 | rebuilds the queue when stale entries pile up |
| PageReclaimer.Reclaimer.AddCachedPage | os/src/fs/page_cache.rs:1675-1711 | adds a page to the cache and the queue |
| BlockCache.EvictFindsVictim | fs/src/block_cache.rs:226-274 | a sweep of twice the queue length finds a victim if and only if some entry is unpinned |
| BlockCache.SweepFinds | fs/src/block_cache.rs:239-269 | an unpinned entry is reached and evicted within two rounds from wherever the hand stands |
| BlockCache.SweepFails | fs/src/block_cache.rs:239-269 | a sweep comes back empty-handed only when everything is pinned |
| BlockCache.SecondChance | fs/src/block_cache.rs:239-269 | the victim is the first unpinned entry from the hand on that was not used since the hand last passed it, and a used one only if every unpinned entry was used |
| BlockCache.SweepClears | fs/src/block_cache.rs:239-269 | an entry that stays loses its use bit if it is unpinned and the hand passed it, and nothing else |
| BlockCache.SweepWrites | fs/src/block_cache.rs:226-274 | making room writes the victim to its device if it was modified, and no other block |
| BlockCache.EvictSafe | fs/src/block_cache.rs:226-274 | eviction never changes the disk its users see |
| BlockCache.EvictKeepsHeld | fs/src/block_cache.rs:226-274 | eviction leaves every pinned entry as it is, and gives up exactly when the cache is full of pinned entries, then changing no entry |
| BlockCache.InstallSafe | fs/src/block_cache.rs:276-288 | installing an entry keeps queue slots and table keys in bijection and the disk unchanged |
| BlockCache.SlotCount | fs/src/block_cache.rs:200-214 | the queue has exactly as many slots as the table has entries |
| BlockCacheManager.Manager.EvictOneIfNeeded | fs/src/block_cache.rs:226-274 | the CLOCK loop computes the specified victim |
| BlockCacheManager.Manager.InstallEntry | fs/src/block_cache.rs:276-288 | reuses the victim's slot or appends one |
| BlockCacheManager.Manager.GetBlock | fs/src/block_cache.rs:311-341 | adds one pin to the entry, loading it on a miss, and touches no other pinned entry and no byte of the disk; fails exactly when the block is not cached and the cache is full of pinned entries |
| BlockCacheManager.Manager.WriteBytes | fs/src/block_cache.rs:168-173 | changes exactly those bytes of that block |
| BlockCacheManager.Manager.InsertPrefetched | fs/src/block_cache.rs:290-309 | backfills a block that equals its disk block, keeping every pinned entry; fails exactly when the cache is full of pinned entries |
| BlockCacheManager.Manager.ScanRange | fs/src/block_cache.rs:363-400 | copies every hit of a range and notes every miss in a run |
| BlockCacheManager.Manager.ReadRanges | fs/src/block_cache.rs:355-431 | ranged reads return the disk, hits and batched misses alike, and leave it unchanged; they fail only when the cache is full of pinned entries |
| BlockCacheManager.Manager.OverwriteHits | fs/src/block_cache.rs:433-478 | replaces the cached copies a write covers and no others |
| BlockCacheManager.Manager.OverwriteRanges | fs/src/block_cache.rs:652-697 | updates exactly the blocks written, as applying the writes in order would |
| BlockCacheManager.Manager.SyncAll | fs/src/block_cache.rs:700-709 | afterwards no entry is modified, none was dropped, and the device equals the disk users see |
| Ext4Adapter.Adapter.WriteInBlock | fs/src/ext4/mod.rs:210-218 | stores bytes inside one block, or nothing when the cache is full of pinned entries |
| Ext4Adapter.Adapter.WriteOffset | fs/src/ext4/mod.rs:203-240 | an unaligned write changes exactly its bytes of the disk, or a reported prefix of them when the cache is full of pinned blocks |
| Ext4Adapter.Adapter.WriteOffsetsMany | fs/src/ext4/mod.rs:242-277 | batching aligned writes and flushing before unaligned ones equals applying all writes in order; it stops early only when the cache is full of pinned blocks |
| Ext4Adapter.Adapter.ReadOffset | fs/src/ext4/mod.rs:111-126 | returns 4096 bytes from any offset |
| Ext4Adapter.Adapter.ReadOffsets | fs/src/ext4/mod.rs:146-169 | merged reads deliver, for each offset, the 4096 bytes from the device block that holds it |
| Ext4Adapter.ChunkExact | fs/src/ext4/mod.rs:146-169 | for an aligned offset those are the bytes at the offset |
| Ext4Adapter.RunChunks | fs/src/ext4/mod.rs:151-167 | one read for a run of adjacent offsets equals reading them one at a time |
| Ext4Adapter.DeferFlush | fs/src/ext4/mod.rs:252-276 | flushing the pending aligned writes leaves what writing all of them at once would have |
| PosixLocks.TableIsMap | os/src/fs/mod.rs:545-702 | over every run of non-empty requests the interval table holds, byte by byte and owner by owner, exactly the locks of the abstract lock map |
| PosixLocks.RunSafe | os/src/fs/mod.rs:1163-1227 | over every run no byte is write-locked by one owner while another holds it, and an owner has at most one lock on a byte |
| PosixLocks.AppliedHolds | os/src/fs/mod.rs:635-696 | applying a request changes exactly the caller's bytes in the range |
| PosixLocks.AppliedCount | os/src/fs/mod.rs:635-696 | and never counts a byte twice |
| PosixLocks.TrimCount | os/src/fs/mod.rs:645-683 | splitting a record takes away exactly the bytes of the range |
| PosixLocks.SortLaw | os/src/fs/mod.rs:568-586 | sorting permutes the records into order |
| PosixLocks.MergedLaw | os/src/fs/mod.rs:588-604 | merging sorted records changes no byte's lock and keeps the order |
| PosixLocks.MergedApart | os/src/fs/mod.rs:568-605 | neighbours of one owner and kind are merged unless a byte lies between them |
| PosixLocks.OverlapsExact | os/src/fs/mod.rs:545-554 | the overlap test is exact on non-empty ranges and never misses a common byte |
| PosixLocks.BlockedExact | os/src/fs/mod.rs:556-558 | a request for reading is stopped by another owner with a write lock on one of its bytes, a request for writing by another owner with any lock there, exactly so on non-empty ranges; no conflict is ever missed |
| PosixLocks.ReadersShare | os/src/fs/mod.rs:556-558 | after any run, a request for reading is granted wherever no other owner has a write lock |
| PosixLocks.ReleasedCount | os/src/fs/mod.rs:698-702 | releasing an owner removes that owner's locks and no others |
| PosixLocks.QuietCall | os/src/fs/mod.rs:698-702 | a call that reports no change has left the table as it was |
| PosixLocks.LockState.SortAndMerge | os/src/fs/mod.rs:567-605 | the sort and merge loop |
| PosixLocks.LockState.FindConflict | os/src/fs/mod.rs:607-633 | reports a conflict exactly when some record stops the request, and the one with the lowest start |
| PosixLocks.LockState.Apply | os/src/fs/mod.rs:635-696 | the split, insert and merge loop; the result says whether the table changed |
| PosixLocks.LockState.ReleaseAll | os/src/fs/mod.rs:698-702 | drops an owner's records and reports a change exactly when there were any |
| PosixLocks.LockState.TrySet | os/src/fs/mod.rs:1163-1227 | one attempt of a lock call: done, would block, interrupted, waiting or overflowing its 64-bit range |
| LockCalls.FromAbiExact | os/src/syscall/fs.rs:2256-2290 | a lock record is accepted exactly for a known type, the start of the file and no negative number, and then keeps its type and names exactly its bytes, never none |
| LockCalls.RefusedExact | os/src/syscall/fs.rs:2458-2484 | after any series of lock and close calls, F_RDLCK is refused if and only if the last call of another process that took effect on one of its bytes was F_WRLCK, F_WRLCK if and only if that call was F_RDLCK or F_WRLCK, and F_UNLCK never |
| LockCalls.HeldExact | os/src/syscall/fs.rs:2458-2484 | the table holds, for every process and byte, the type of the last call that took effect there, told from the calls alone |
| LockCalls.EmptyLockStops | os/src/fs/mod.rs:607-633 | a lock of no byte would stop a request around it, and the conversion never asks for one |
| LockCalls.NoLostWake | os/src/fs/mod.rs:1179-1248 | over every interleaving of attempts, queueing, second looks, releases, signals and delayed wake-ups, a caller asleep on a request that could be granted has a wake-up on its way |
| LockCalls.EventKeeps | os/src/fs/mod.rs:1201-1223 | each event keeps that |
| LockCalls.WakeFrees | os/src/task/wait_queue.rs:185-187 | a wake-up leaves nobody queued or asleep and the table as it was |
| LockCalls.RecheckNeeded | os/src/task/wait_queue.rs:77-93 | a run in which the release and its wake-up both come before the caller is queued, so that only the second look lets it go on |
| EasyBitmap.DecomposeCompose | fs/src/easyfs/bitmap.rs:17-21 | bit numbers and block, word and bit places correspond one to one |
| EasyBitmap.Bitmap.Alloc | fs/src/easyfs/bitmap.rs:32-58 | allocates the lowest free bit and sets no other; fails exactly when all are set |
| EasyBitmap.Bitmap.Dealloc | fs/src/easyfs/bitmap.rs:60-68 | clears exactly that bit |
| EasyBitmap.Bitmap.CountAllocated | fs/src/easyfs/bitmap.rs:75-87 | returns the number of set bits |
| EasyTree.DecodeEncode | fs/src/easyfs/layout.rs:89-90 | block numbers survive their little-endian encoding |
| EasyTree.WordSet | fs/src/easyfs/layout.rs:202-213 | storing one entry of an index block leaves the others |
| EasyTree.WordBytes | fs/src/easyfs/layout.rs:89-90 | an entry of an index block is four bytes, the lowest first |
| EasyTree.BlocksInOrder | fs/src/easyfs/layout.rs:155-178 | the blocks of a file are the direct ones, those of the indirect block, and then block by block those of the double-indirect one |
| EasyTree.TotalIsSlots | fs/src/easyfs/layout.rs:133-148 | the block count of a file is the number of slots its tree fills, data and index blocks alike |
| EasyTree.SlotSeqExact | fs/src/easyfs/layout.rs:133-148 | each of those slots is filled exactly once |
| EasyTree.ParentFirst | fs/src/easyfs/layout.rs:180-251 | an index block is always allocated before the slots it holds |
| EasyTree.PutOwns | fs/src/easyfs/layout.rs:180-251 | storing a block number in the next slot extends the tree and disturbs no filled slot |
| EasyTree.GrowOwns | fs/src/easyfs/layout.rs:180-251 | filling further slots with unused blocks keeps every slot owned by its own block and touches only this file's index blocks |
| EasyTree.TreeKept | fs/src/easyfs/layout.rs:155-178 | a tree is unchanged while its index blocks are |
| EasyTree.StoreInBlock | fs/src/easyfs/layout.rs:368-404 | writing a data block changes those bytes of that file only |
| EasyInode.Device.IncreaseSize | fs/src/easyfs/layout.rs:180-251 | consumes exactly the new blocks and stores them in the slots of the larger tree, in order |
| EasyInode.Device.FillDouble | fs/src/easyfs/layout.rs:215-250 | the double-indirect part of it, from block pair to block pair |
| EasyInode.Device.ClearSize | fs/src/easyfs/layout.rs:256-326 | returns every block of the tree in order and zeroes exactly the roots that were in use |
| EasyInode.Device.ListDouble | fs/src/easyfs/layout.rs:286-325 | the double-indirect part of it |
| EasyInode.Device.ReadAt | fs/src/easyfs/layout.rs:328-366 | returns the bytes of the file, cut at its size |
| EasyInode.Device.WriteAt | fs/src/easyfs/layout.rs:368-404 | changes exactly the given bytes of the file and only its data blocks |
| EasyInode.SlotAt | fs/src/easyfs/layout.rs:180-251 | which slot is filled at each point of a growth |
| EasyVolume.ListedExact | fs/src/easyfs/layout.rs:256-326 | the list that clearing returns holds each block the file owns exactly once |
| EasyVolume.FirstFit | fs/src/easyfs/bitmap.rs:32-58 | first fit never goes beyond the number of blocks in use |
| EasyVolume.FirstFitInArea | fs/src/easyfs/bitmap.rs:32-58 | the block first fit takes lies in the data area exactly when the area has a free block |
| EasyVolume.GrowTree | fs/src/easyfs/inode.rs:68-83 | growth gives the tree of the larger file, with its new blocks outside the old tree |
| EasyVolume.FileIsBlocks | fs/src/easyfs/layout.rs:328-370 | a file is its data blocks in order, cut at its size inside the last one |
| EasyVolume.GrowKeeps | fs/src/easyfs/inode.rs:68-83 | growing one file keeps the volume invariant, appends zeros to it and leaves every other file alone |
| EasyVolume.ClearKeeps | fs/src/easyfs/inode.rs:266-276 | clearing one file keeps the volume invariant and every other file |
| EasyFs.LayoutFills | fs/src/easyfs/efs.rs:37-57 | the five regions follow each other and fill the volume, and both bitmaps can name everything they manage |
| EasyFs.InodePosFits | fs/src/easyfs/efs.rs:126-134 | inodes follow each other 128 bytes apart in the inode area, each inside a block, and never overlap |
| EasyFs.FileSystem.constructor | fs/src/easyfs/efs.rs:32-92 | a new volume has an empty root and no block in use |
| EasyFs.FileSystem.AllocData | fs/src/easyfs/efs.rs:145-147 | gives an unused block while the bitmap has a free bit; it lies in the data area if and only if the area has a free block |
| EasyFs.FileSystem.DeallocData | fs/src/easyfs/efs.rs:149-161 | zeroes and frees a block |
| EasyFs.FileSystem.AllocMany | fs/src/easyfs/inode.rs:77-81 | gives distinct unused blocks while the bitmap has bits, all in the data area if and only if the area has room for them |
| EasyFs.FileSystem.Grow | fs/src/easyfs/inode.rs:68-83 | zero-pads the file and uses exactly the difference of the block counts |
| EasyFs.FileSystem.WriteAt | fs/src/easyfs/inode.rs:288-294 | a file is a byte array: a write overlays it, past the end too, an empty write only extends it to its offset, and no other file changes |
| EasyFs.FileSystem.ReadAt | fs/src/easyfs/inode.rs:283-286 | reads return that array |
| EasyFs.FileSystem.Clear | fs/src/easyfs/inode.rs:266-276 | empties the file and frees exactly the blocks it owned |
| EasyFs.FileSystem.FreeMany | fs/src/easyfs/inode.rs:271-273 | zeroes and frees a list of blocks |
| EasyFs.FileSystem.Create | fs/src/easyfs/inode.rs:166-175 | gives a new empty file; fails exactly when every inode is taken, changing nothing |
| EasyFs.WrittenVolume | fs/src/easyfs/layout.rs:368-404 | a write inside a file keeps the volume invariant and overlays that file |
| PollRegistry.NoLostWake | os/src/poll.rs:429-616 | from registration to clean-up a wait is triggered if and only if a notification of something it asked for, a signal to its process or its own timer has come, and it ends as the first of them says, whatever else happens |
| PollRegistry.StepKeepsWait | os/src/poll.rs:502-616 | each call triggers an armed wait exactly when it should, and leaves one that was triggered as it ended |
| PollRegistry.HitExact | os/src/poll.rs:515-533 | a key that watches what was asked for is hit by an event if and only if it was asked for; errors and hang-ups always are |
| PollRegistry.JoinInv | os/src/poll.rs:444-458 | attaching a key to a row keeps the matrix invariant and every other key |
| PollRegistry.JoinWatches | os/src/poll.rs:444-458 | and makes the key watch exactly the interests so far |
| PollRegistry.ClearedInv | os/src/poll.rs:329-347 | clearing a key keeps the matrix invariant and every other key |
| PollRegistry.RowsHit | os/src/poll.rs:514-534 | scanning the rows wakes exactly the keys whose registrations match |
| PollRegistry.Poll.constructor | os/src/poll.rs:256-263 | an empty registry satisfies the invariant |
| PollRegistry.Poll.AllocKey | os/src/poll.rs:265-284 | takes the first free key of the ring, with the next generation, and moves the ring past it; fails exactly when none is free |
| PollRegistry.Poll.FindRow | os/src/poll.rs:286-321 | finds the row of a file, or else the first free row of the ring; fails exactly when there is neither |
| PollRegistry.Poll.ClearKey | os/src/poll.rs:329-347 | clears a key's bits from every row it lists |
| PollRegistry.Poll.Cleanup | os/src/poll.rs:349-360 | frees a key that the handle still names, and otherwise does nothing |
| PollRegistry.Poll.Register | os/src/poll.rs:429-462 | registers a wait that watches exactly its interests, or rolls back |
| PollRegistry.Poll.Notify | os/src/poll.rs:502-550 | makes exactly the active keys that match Ready, and wakes exactly those |
| PollRegistry.Poll.NotifySignal | os/src/poll.rs:552-570 | makes a process's active keys Ready |
| PollRegistry.Poll.Timeout | os/src/poll.rs:585-616 | times out an active wait of that task and clears it; otherwise nothing changes |
| Epoll.EdgeExact | os/src/fs/epoll.rs:106-144 | over every run, an edge item watching reading is queued exactly while a zero-to-non-zero change is owed to it, and its detector is non-zero exactly when the counter is |
| Epoll.QueueExact | os/src/fs/epoll.rs:176-190 | over every run no item is queued twice, only live interests are queued, and a ready level item is queued |
| EpollUser.WaitExact | os/src/fs/epoll.rs:211-251 | after any run a wait returns, for different keys, the events that hold now with the data of the last call for that key; unless it stops at its limit it returns every level interest with an event and every edge interest watching reading that has one and is owed a change |
| EpollUser.RunSeen | os/src/fs/epoll.rs:308-424 | over every run the live item of a key carries the source, events, mode and data of the last ADD or MOD that took effect, and no other key has one; counters are those of the reads and writes |
| EpollUser.StepSeen | os/src/fs/epoll.rs:308-424 | every operation on every sound instance does to what the user sees exactly what it means |
| EpollUser.CollectFulfils | os/src/fs/epoll.rs:211-251 | the same for one wait on any sound instance |
| Epoll.EdgeStep | os/src/fs/epoll.rs:600-629 | what each operation does to an edge item it does not renew |
| Epoll.StepInv | os/src/fs/epoll.rs:176-423 | every operation keeps the invariant |
| Epoll.NotifyAllIs | os/src/fs/epoll.rs:600-629 | a notification updates each subscriber once and nothing else |
| Epoll.NotifyRestores | os/src/fs/epoll.rs:600-629 | notifying what became ready restores every detector and every level item |
| Epoll.WriteStep | os/src/fs/eventfd.rs:125-162 | a write queues exactly the edge items of that eventfd when the counter leaves zero |
| Epoll.ReadStep | os/src/fs/eventfd.rs:76-123 | a read queues no edge item and re-arms those of an emptied counter |
| Epoll.ReadFull | os/src/fs/eventfd.rs:90-109 | a read of a full counter announces room and emptiness in turn |
| Epoll.CollectInv | os/src/fs/epoll.rs:211-251 | collecting keeps the invariant and takes edge items off the queue |
| Epoll.DeliveredExact | os/src/fs/epoll.rs:211-251 | every delivered event belongs to a live, ready item, and every such item taken is delivered |
| Epoll.RemovedInv | os/src/fs/epoll.rs:408-423 | a deleted interest is out of the queue |
| Epoll.Instance.constructor | os/src/fs/epoll.rs:165-170 | an empty instance |
| Epoll.Instance.EnqueueItem | os/src/fs/epoll.rs:176-190 | queues a live item at most once |
| Epoll.Instance.NotifySource | os/src/fs/epoll.rs:600-629 | the subscriber loop |
| Epoll.Instance.WriteFd | os/src/fs/eventfd.rs:125-162 | adds to the counter within its limit, and notifies |
| Epoll.Instance.ReadFd | os/src/fs/eventfd.rs:76-123 | takes one or all of the counter, and notifies |
| Epoll.Instance.CtlAdd | os/src/fs/epoll.rs:308-372 | adds an interest and queues it if ready |
| Epoll.Instance.CtlMod | os/src/fs/epoll.rs:374-406 | restarts an interest |
| Epoll.Instance.CtlDel | os/src/fs/epoll.rs:408-423 | deletes an interest |
| Epoll.Instance.CollectReady | os/src/fs/epoll.rs:211-251 | delivers the events of the items taken, in queue order, up to the limit |
| Epoll.Instance.RequeueLevel | os/src/fs/epoll.rs:245-249 | queues delivered level items again while they are ready |
| FatChains.EntryPosFits | fs/src/fat32/fat.rs:44-51 | entries follow each other four bytes apart in every copy of the table, lie in it and never overlap |
| FatChains.EndMarks | fs/src/fat32/fat.rs:12-14 | the last eight values of 28 bits, and they alone, end a chain |
| FatChains.ChainAcyclic | fs/src/fat32/fat.rs:129-140 | a chain that ends never meets itself |
| FatChains.GrowOk | fs/src/fat32/inode.rs:412-478 | growing one file by a free cluster keeps all chains, in range and disjoint, and takes one from the free count |
| FatChains.ClearOk | fs/src/fat32/fat.rs:114-127 | freeing one chain keeps all others and gives its length back to the free count |
| FatChains.FreeIsUnused | fs/src/fat32/fat.rs:82-112 | a zero entry is in no chain |
| FatChains.Fat.WriteEntry | fs/src/fat32/fat.rs:58-71 | stores the low 28 bits in every copy and keeps the high four |
| FatChains.Fat.AllocCluster | fs/src/fat32/fat.rs:82-112 | takes the first zero entry from the hint on, wrapping round, and sets the next hint; fails exactly when there is none |
| FatChains.Fat.LastCluster | fs/src/fat32/fat.rs:129-140 | finds the end of a chain |
| FatChains.Fat.ChainLength | fs/src/fat32/inode.rs:427-440 | counts a chain |
| FatChains.Fat.NthCluster | fs/src/fat32/inode.rs:108-122 | finds cluster n exactly when the chain is long enough |
| FatChains.Fat.FreeChain | fs/src/fat32/fat.rs:114-127 | zeroes exactly the entries of a chain |
| FatChains.Fat.CountFree | fs/src/fat32/fat.rs:142-153 | counts the zero entries |
| FatChains.ClustersApart | fs/src/fat32/bpb.rs:101-104 | the sectors of different clusters never meet |
| FatChains.ClustersTile | fs/src/fat32/bpb.rs:101-104 | cluster 2 starts the data area, each cluster begins where the one before it ends, and n clusters fill exactly n times their sectors |
| FatChains.OnlyData | fs/src/fat32/bpb.rs:101-104 | a write to clusters of the table changes no sector outside the data area |
| FatChains.DataGrows | fs/src/fat32/inode.rs:464-477 | linking a zeroed free cluster extends one file by zeros and changes no other file |
| FatChains.Volume.ZeroFill | fs/src/fat32/inode.rs:469-474 | zeroes exactly the sectors of a cluster |
| FatChains.Volume.Append | fs/src/fat32/inode.rs:464-477 | links one more zero-filled cluster; the file grows by zeros, no other file changes, and it fails exactly when no cluster is free |
| FatChains.Volume.EnsureClusters | fs/src/fat32/inode.rs:412-478 | keeps the old chain and its contents as a prefix, the rest reads as zero, every other file is as it was, free count plus length is constant, and it stops early only when the table is full |
| FatChains.Volume.Clear | fs/src/fat32/inode.rs:789-803 | frees a file's chain and keeps the contents of every other file |
| FatFiles.FileStore.WriteAt | fs/src/fat32/inode.rs:827-856 | a file is a byte array: a write overlays it, past the end too, with zeros in a gap, an empty write only extends it to its offset, and no other file changes; the bytes lie on the disk where the clusters of the file say, and no sector of another cluster changes; new clusters come from the free ones, no more than needed; on a full volume every file stays as it was |
| FatFiles.FileStore.ReadAt | fs/src/fat32/inode.rs:810-825 | reads return that array, and those bytes of the disk that the clusters of the file name |
| FatFiles.FileStore.WriteChainAt | fs/src/fat32/inode.rs:150-174 | stores along the chain until it ends and says how much, changing no byte of any other file |
| FatFiles.FileStore.ReadChainAt | fs/src/fat32/inode.rs:124-148 | reads along the chain until it ends |
| FatFiles.FileStore.WriteCluster | fs/src/fat32/inode.rs:87-106 | the sector loop changes exactly those bytes |
| FatFiles.FileStore.ReadCluster | fs/src/fat32/inode.rs:68-85 | the sector loop returns exactly those bytes |
| FatFiles.FileStore.Clear | fs/src/fat32/inode.rs:789-803 | empties a file and keeps every other |
| FatFiles.HomesApart | fs/src/fat32/bpb.rs:101-104 | bytes of two files never share a sector |
| FatFiles.ByteOnDisk | fs/src/fat32/bpb.rs:101-104 | byte i of a file is the disk byte counted from the data area: whole clusters from number 2 on, then the rest |
| FatFiles.OnePiece | fs/src/fat32/bpb.rs:101-104 | a file of neighbouring clusters lies on the disk in one piece |
| FatFiles.GrewBytes | fs/src/fat32/inode.rs:412-478 | a chain made longer shows the old bytes and then zeros |
| FatFiles.StoreShape | fs/src/fat32/inode.rs:150-174 | bytes stored inside a file overlay it, change no other and leave the rest of the clusters zero |
| FatNames.LongNameRoundTrip | fs/src/fat32/dir.rs:245-356 | the entries built for an accepted name parse and assemble back, under the same short name, to the name without its units 0xFFFF, and so to the name itself if and only if it holds none |
| FatNames.FillerIsLost | fs/src/fat32/dir.rs:349-354 | an accepted name of three units that comes back as two |
| FatNames.ParseEntry | fs/src/fat32/dir.rs:255-296 | each entry parses back to its part |
| FatNames.ParsedIsEntry | fs/src/fat32/dir.rs:255-296 | what parses is an entry of the format: built again it is the same bytes, but for two ignored bits of the order byte |
| FatNames.NameOnDisk | fs/src/fat32/dir.rs:485-530 | a long name on disk, unit by unit: no more entries than it needs, the last one first and marked, numbered from 1, each with the checksum, then a terminator and fillers |
| FatNames.EntryBytes | fs/src/fat32/dir.rs:505-527 | every field of an entry at its place, units with the low byte first |
| FatNames.HasOrder | fs/src/fat32/dir.rs:326-342 | n parts numbered 1 to n without repetition leave no slot empty |
| FatNames.NoZero | fs/src/fat32/dir.rs:359-385 | an accepted name holds no terminator |
| FatNames.LfnChecksum | fs/src/fat32/dir.rs:245-251 | the checksum loop, in eight bits |
| FatNames.TurnsRight | fs/src/fat32/dir.rs:245-251 | before each character the sum is turned right by one bit of eight |
| FatNames.OneChangeShows | fs/src/fat32/dir.rs:245-251 | two short names that differ in one character have different checksums |
| FatNames.BuildLfnEntries | fs/src/fat32/dir.rs:485-533 | builds the entries in disk order exactly for accepted names that fit the order field |
| FatNames.ParseLfnPart | fs/src/fat32/dir.rs:255-296 | the unit loops of the parser |
| FatNames.AssembleLfn | fs/src/fat32/dir.rs:301-356 | succeeds exactly for parts that make one name, in any order, and returns their units up to the terminator |
| FatNames.TableOf | fs/src/fat32/dir.rs:326-337 | places parts by order, refusing gaps and repeats |
| FatShortNames.ShortNameRoundTrip | fs/src/fat32/dir.rs:77-187 | an accepted short name prints back as the trimmed name if and only if that does not end in a dot |
| FatShortNames.ComponentBack | fs/src/fat32/dir.rs:150-168 | a component in one case prints back in its case |
| FatShortNames.EncodeComponent | fs/src/fat32/dir.rs:150-168 | accepts exactly short characters in one case |
| FatShortNames.ShortListed | fs/src/fat32/dir.rs:387-397 | short names hold letters, digits and five signs, each listed |
| FatShortNames.SfnFromStr | fs/src/fat32/dir.rs:123-187 | accepts exactly the names with an 8.3 form |
| FatShortNames.AliasesDistinct | fs/src/fat32/dir.rs:411-480 | numbers of up to seven digits give distinct aliases of one name |
| FatShortNames.AliasesEqual | fs/src/fat32/dir.rs:411-480 | two aliases of one name are equal if and only if their numbers agree in the first seven digits |
| FatShortNames.EightDigitsCollide | fs/src/fat32/dir.rs:468-470 | numbers of eight digits or more that differ only in the last share every alias |
| FatShortNames.AliasIsShortName | fs/src/fat32/dir.rs:387-480 | every alias is a legal short name in capitals: printed and read again it comes back |
| FatShortNames.AliasWithExt | fs/src/fat32/dir.rs:420-431 | the extension of an alias is what follows the last dot, cut after three characters |
| FatShortNames.AliasWithout | fs/src/fat32/dir.rs:420-423 | a name with no inner dot, or with a dot at its end, has none |
| FatShortNames.AliasFrontExact | fs/src/fat32/dir.rs:433-470 | before the tilde stands as much of the base name, without dots, as fits in front of the number, up to six characters |
| FatShortNames.SfnAliasFromLfn | fs/src/fat32/dir.rs:411-480 | the alias of a name and a positive number |
| DentryCache.ReclaimedKeeps | fs/src/dentry_cache.rs:168-197 | eviction ends at or below the high watermark and never changes an answer |
| DentryCache.ReclaimProgress | fs/src/dentry_cache.rs:176-197 | every eviction step leaves less to do, so eviction ends |
| DentryCache.EvictsFirstUnused | fs/src/dentry_cache.rs:168-197 | with every entry queued once, eviction takes the first unused entry, and the used ones before it stay without their bit |
| DentryCache.UsedNameStays | fs/src/dentry_cache.rs:65-148 | a cached name that was just looked up outlives the next insertion while some entry is unused |
| DentryCache.QueuedTwice | fs/src/dentry_cache.rs:151-162 | a name that is removed and recorded again is queued twice |
| DentryCache.SecondChanceLost | fs/src/dentry_cache.rs:176-197 | such a name can go although it was just used and unused names are queued |
| DentryCache.InsertedKeeps | fs/src/dentry_cache.rs:82-148 | recording the backend's answer keeps the cache coherent, the negative count exact and the table bounded |
| DentryCache.RemovedKeeps | fs/src/dentry_cache.rs:151-162 | so does removing an entry |
| DentryCache.RenameExact | fs/src/vfs.rs:872-909 | over ext4, a rename keeps the cache right if and only if it is not between two links of one inode, whenever the two names fit the cache |
| DentryCache.RenamedExact | fs/src/vfs.rs:890-902 | over any backend and cache, the cache is right after a rename if and only if the backend moved the name, both names are one, or the old name did not stay cached |
| DentryCache.RenamedMoves | fs/src/vfs.rs:892-902 | the cache after a rename always agrees with a backend that moved the name |
| DentryCache.SameInodeRenameStale | fs/src/ext4/mod.rs:850-855 | from an empty cache, renaming one link of an inode to another makes the cache deny a name that exists |
| DentryCache.Vfs.LookupEntry | fs/src/dentry_cache.rs:65-79 | a cached answer is the backend's answer |
| DentryCache.Vfs.ReclaimIfNeeded | fs/src/dentry_cache.rs:168-197 | the eviction loop |
| DentryCache.Vfs.Insert | fs/src/dentry_cache.rs:82-148 | inserts or replaces a positive or negative entry |
| DentryCache.Vfs.Find | fs/src/vfs.rs:544-591 | a lookup equals the backend's answer |
| DentryCache.Vfs.AddName | fs/src/vfs.rs:597-660 | create, mkdir, symlink and link keep the cache coherent |
| DentryCache.Vfs.RemoveName | fs/src/vfs.rs:801-843 | unlink and rmdir keep it coherent, on success and on every failure |
| DentryCache.Vfs.Rename | fs/src/vfs.rs:872-909 | with every outcome of the backend: the exact new cache, and coherence unless two links of one inode were left alone and the old name stays cached |
| DentryCache.Vfs.RenameAt | os/src/fs/inode.rs:1193-1239 | rename by path ends before the backend for two names of one inode number, and so always keeps the cache coherent |
| CivilDate.DaysRoundTrip | os/src/fs/devfs.rs:315-340 | every day number gives a valid date that converts back to it |
| CivilDate.CivilRoundTrip | os/src/fs/devfs.rs:315-340 | every valid date survives the trip to days and back |
| CivilDate.CountsDays | os/src/fs/devfs.rs:315-326 | day numbers count from 1 January 1970, one for each next date of the calendar |
| CivilDate.YearFound | os/src/fs/devfs.rs:328-340 | the year formula is right for every day of an era |
| CivilDate.MonthFound | os/src/fs/devfs.rs:328-340 | the month formula is right for every day of a year |
| CivilDate.YDayIsDistance | os/src/fs/devfs.rs:342-352 | the day of the year is the distance from 1 January |
| CivilDate.YearFits | os/src/fs/devfs.rs:354-376 | the year of a second fits its fields exactly between the first second of the year -2147481748 and the last of 2147483647 |
| CivilDate.UnixRoundTrip | os/src/fs/devfs.rs:354-400 | seconds to clock time and back is the identity between those two ends |
| CivilDate.RtcRoundTrip | os/src/fs/devfs.rs:354-400 | every accepted clock time survives the reverse trip |
| CivilDate.WeekDays | os/src/fs/devfs.rs:354-375 | days of the week follow each other from the Thursday of the epoch |
| BootRegions.UsableCovers | os/src/bootinfo.rs:162-209 | the fragments cover exactly the region minus all reserved ranges |
| BootRegions.UsableApart | os/src/bootinfo.rs:162-209 | they are disjoint and at most one more than the reserved ranges |
| BootRegions.SubtractAllApart | os/src/bootinfo.rs:187-209 | subtracting one range splits at most one fragment |
| BootRegions.UsableFragments | os/src/bootinfo.rs:162-185 | the fixed array never overflows and yields those fragments |
| BootRegions.SubtractRegion | os/src/bootinfo.rs:187-209 | appends what is left of a fragment |
| BootRegions.PushRegion | os/src/bootinfo.rs:211-217 | appends unless empty or full |
| Dirents.ListsOnce | os/src/fs/mod.rs:1296-1364 | a series of calls lists a prefix of the snapshot, each entry once and in order, and all of it when the buffers fit every record |
| Dirents.ListsOneMoment | os/src/fs/mod.rs:1296-1318 | however the directory changes between the calls, they list what it held at one moment: the last call made before anything was listed |
| Dirents.ReadsOneMoment | os/src/fs/mod.rs:1296-1364 | a reader of all the buffers sees those entries in order and once each |
| Dirents.RecordsAligned | os/src/fs/mod.rs:372-405 | every record starts at a multiple of eight |
| Dirents.ReadBack | os/src/fs/mod.rs:372-405 | reading the records gives the entries back |
| Dirents.RecordBack | os/src/fs/mod.rs:372-405 | one record reads back, number, position, length, type and name |
| Dirents.RecordBytes | os/src/fs/mod.rs:372-405 | every field of a record at its place, numbers with the low byte first, zeros after the name |
| Dirents.EncodeRecords | os/src/fs/mod.rs:372-405 | writes as many whole records as fit and leaves the rest of the buffer |
| Dirents.Directory.Getdents64 | os/src/fs/mod.rs:1296-1364 | lists the next entries of the snapshot and moves the position just past them |
| Dirents.Directory.LastOffset | os/src/fs/mod.rs:1331-1355 | the cursor loop finds the position after the last record |

## Left out

- PageReclaim.StepQueue: putting a page back during a pass never compacts the queue; in the source it may.
- PageWriters.NoWriteIsLost: truncation, stores through shared mappings and loads of several pages in one request are not steps of the system; `PageTruncate` and `PageLoad` cover truncation and range loads for one file operation at a time.
- PageSystem.CopyExact: a page that a short range load left partly filled is not a state of the system.
- `fallocate`, mmap faults, the readahead worker and the reclaim path inside frame allocation: they add callers of the same operations.
- PageMapping.PageMapping.CollectBatch: does not model waiting for a page that another flush is writing, because file operations on one mapping run one after another here; `PageSystem` covers the concurrent case.
- Block cache, epoll and eventfd operations are atomic; the windows in which the kernel drops a lock inside one are not modelled.
- BlockCacheManager.Manager.GetBlock: the panic when every entry is pinned is the result `false`, and what follows a panic is not modelled.
- Ext4Adapter: the uncached read paths, which bypass the block cache, and the ext4 library behind the adapter.
- EasyFS inodes are kept as values, one per number, instead of as bytes of the inode area; `EasyFs.InodePosFits` shows that their places never overlap.
- EasyFs.FileSystem.Grow: excludes files beyond the tree's limit and growth beyond the free blocks, because the source then panics or works on blocks past the data area; `EasyFs.FileSystem.AllocMany` states exactly when.
- EasyFs.FileSystem.WriteAt: excludes the same, and the block lookup of an empty write, which changes nothing, is not modelled.
- EasyFS directories: entries are ordinary file bytes.
- PosixLocks.LockState.TrySet: models one attempt; `LockCalls` covers the waiting between attempts.
- LockCalls: the scheduler; a caller woken between its second look and its sleep does not sleep.
- PollRegistry: stale handles after 256 reuses of one key, because the generation is a wrapping byte, and the wait queue itself.
- Epoll.Instance.CtlAdd: watches eventfds only, because other files are ready on rules of their own.
- Epoll: edge items that watch writing, nested epoll, closing of the watched file, and the sleep in `epoll_pwait`.
- FatChains.Volume.EnsureClusters: the panic on a full table is the result `false`.
- FatFiles.FileStore.WriteAt: excludes writes that end at or past 4 GiB, whose end the source cuts to 32 bits.
- FAT32 directory slots and the volume label.
- FatShortNames.SfnAliasFromLfn: a character outside the basic plane is two units here, each of which becomes an underscore; in the source it is one character and one underscore.
- FatNames: UTF-8 and UTF-16 conversion, because names are UTF-16 code units throughout.
- DentryCache.Vfs.AddName: covers create, mkdir, symlink and link_inode, which update the cache in the same way; the inode cache and the stat cache are not modelled.
- `Inode::link`, which does not touch the name cache.
- CivilDate.UnixRoundTrip: years outside the 32-bit field, which wrap in the source. The module's file is named `T.dfy`, not after it.
- Dirents.Directory.Getdents64: directories with a native `getdents64`, and names too long for the 16-bit record length.
- Device drivers, boot assembly, performance counters, procfs, sysfs and cgroupfs rendering, pipes, klog, keyrings, flock, the ASID allocator and SysV shared memory: hardware, reporting or simpler members.
