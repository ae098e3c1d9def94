# YamKernel verification

Dafny models of the stateful cores of YamKernel and proofs of what they keep over every run. Each module models one
source file or one layer of it, in the source's own form: objects whose fields change in place are classes, loops are
loops, and each method is proved against a specification of the state it leaves.

## What is proved

- **Physical memory** (`CellTree`, `Stocks`, `PhysicalMemory`; src/mem/pmm.c). The live leaves of the cell tree tile
  the root chunks at all times, used cells are disjoint, the free total is the size of the free leaves, also when a
  split stops because the node pool is exhausted. No split cell keeps four free quarters, so once everything is given
  back each root is one free cell. An allocation is at least as large as asked for and less than four times that while
  pool nodes remain, and it is the first that fits in the order of the scan.
- **Copy-on-write address spaces** (`CowMemory`, `PageTables`, `PageRights`, `AddressSpaces`, `Forking`, `TearDown`,
  `Syscalls`, `Processes`, `MemoryRuns`; src/mem/vmm.c). Four-level tables in physical frames refine a flat map;
  mapping or unmapping a page changes the translation of that page only. Where only pages with the USER bit are mapped,
  every way to a mapped page is open to user mode, so that an access walked as the processor walks it reaches what the
  page holds. Each owned frame's count is the number of entries that map it, and a frame with two users is read-only
  and marked in all of them. Every run of stores, forks, faults, maps and drops, in any interleaving of spaces, is
  state by state a run of the machine that copies every page at fork. `AddressSpaces.Vmm` sits on `PhysicalMemory.Pmm`:
  the frames it maps are cells of that allocator. Over whole runs of system calls (`MemoryRuns.WholeRun`), what
  programs see is a run of processes with memories of their own: no call of one changes a page of another's
  (`Processes.RunIsolated`). When all have ended, the rest of the kernel has its allocations and counts as before, and
  free memory is what it was but for the frames lost, which the run counts. A script whose needs, summed up before it
  starts, the free memory covers loses none, and none of its calls falls short (`Processes.RunAffords`). Every call
  says how many frames it takes: a fork as many as the parent has tables, a copy-on-write fault one exactly when others
  have the page, an absent page its frame and the tables it misses.
- **DEFLATE Huffman decoding** (`Bits`, `CanonicalCodes`, `HuffmanTables`, `BitReading`; tools/stb_image.h). The
  builder accepts exactly the length lists whose Kraft sum is at most one. The 9-bit lookup table and the preshifted
  slow path together decode the canonical code of section 3.2.2 of RFC 1951 on every bit string, lookup entries never
  overwrite one another, the slow path's checks never fire, and decoding inverts encoding.
- **PNG reconstruction** (`PngFilters`; tools/stb_image.h). The two-row reconstruction loop inverts the filters of
  section 6 of RFC 2083 on every image and every choice of filters, with the reformulated Paeth predictor and the
  first-row filters.
- **Block cache** (`BlockCache`; src/fs/bcache.c). The cache refines flat disks: reads give and keep the view, writes
  change exactly the written sectors of it, evicting the least recently used page keeps it, flushing makes the disk
  equal to it.
- **FAT32** (`FatLayout`, `FatVolume`, `FatChains`, `FatFiles`, `FatNames`, `FatDirectory`, `FatTree`, `FatFileSystem`,
  `FatPaths`, `FatRuns`; src/fs/fat32.c), on top of the block cache. Tables and clusters tile the sectors behind the
  reserved ones. Successful writes and unlinks keep chains acyclic, ended and disjoint, keep both tables equal, keep
  every chain but the root directory's owned by exactly one directory entry, so that every cluster is free or in use by
  a file or directory, give back exactly the clusters of what they replace, and leave every other file as it was. Every
  directory stays reachable from the root. A write succeeds exactly when the free clusters and those of the data it
  replaces are enough for the new data and the directory. What is written to a path is read back from it through any
  state of the cache. Over whole runs the volume is a flat map from stored names to contents (`FatRuns.RunChanges`).
- **Descriptors and pipes** (`Descriptors`, `DescriptorRuns`, `Rings`, `PipeBuffer`; src/fs/vfs.c, src/ipc/pipe.c).
  Each file's count is the number of slots holding it, its close hook runs exactly once, a pipe is freed exactly once
  and only after both ends are gone, and the ring delivers bytes in order. Over whole runs (`DescriptorRuns.WholeRun`)
  every call does to the tables what a specification on tables says, and nothing is left when all tasks have ended.
- **Heap free list** (`HeapBlocks`; src/mem/heap.c). Blocks tile the arena, payloads in use are aligned and disjoint,
  no two neighbours are both free, and the payloads in use decide the whole list. A request takes its rounded size, or
  the little more that is not worth a block.
- **TCP reception** (`TcpReceive`; src/net/tcp.c) and **the Internet checksum** (`InternetChecksum`; src/net/ip.c).

## Where the code falls short of the property

Each of these is a proved exact condition, not an assumption.

- `pmm_alloc_pages` multiplies the page count by 4096 in 64 bits; from 2^52 pages on the request shrinks
  (`PhysicalMemory.RequestHonoured`).
- `vmm_map_page` over an entry that owns its frame strands a reference; counts stay exact exactly when the page held
  none (`CowMemory.MapOverExact`).
- `vmm_map_page` does not look at the flags of tables that are there. After it, user accesses get through to the page
  exactly if its own entry and every entry that was on the way before have the USER bit (`PageRights.MappedOpen`;
  `MemoryRuns.ShutOut` is a case where they do not).
- `sys_munmap` and a shrinking `sys_brk` do not look at DONT_FREE; dropping a page keeps the rest of the kernel's
  allocations and counts exactly when it is no window on the first frame of one of them
  (`AddressSpaces.Vmm.DropPage`, `Syscalls.Munmap`; `MemoryRuns.LoseForeign` is a case).
- Demand paging and `sys_brk` do not look at the result of `vmm_map_page`, and lose the frame when a table cannot be
  had. While the allocator has nodes, the page is mapped exactly when there is memory for it and its missing tables
  (`AddressSpaces.Vmm.MapFresh`; `MemoryRuns.LoseFrame` is a case).
- A write that runs out of clusters has freed the old data and leaves a chain behind. The volume then satisfies the
  invariant, in whatever layout, exactly when no cluster was at hand or the lowest one was the head of the old data
  (`FatFileSystem.FailedWrite`, `FatFileSystem.WriteFile`; `FatFileSystem.LossyVolume` is a volume where it is neither).
- A file's size field has 32 bits; written bytes come back exactly below 2^32 of them (`FatPaths.WriteThenReadPath`).
- TCP acknowledges data that does not fit the receive ring; the stream stays intact exactly when accepted data fits
  (`TcpReceive.Socket.Receive`). `TcpReceive.OverrunThenMore` delivers what is no prefix of the stream.
- `align_up` in the heap wraps for requests above 2^64 - 16 (`HeapBlocks.AlignUpServes`).
- The comment on the free-cell search speaks of a best fit; the code takes the first fit, and so does the model. The
  comment in tcp_recv says that wrap-around is ignored; the code handles it, and so does the model.

## Model

| member | source | states |
|---|---|---|
| `CellTree.CellSizeIsPages` | src/mem/pmm.c:258-287 | every cell is a whole number of pages, a page times a power of four |
| `CellTree.LeafAt` | src/mem/pmm.c:72-92 | descending through split cells ends in a live leaf holding the address |
| `CellTree.DescentMeets` | src/mem/pmm.c:72-92 | the descent from a root to an address meets every live cell holding that address |
| `CellTree.LeavesDisjoint` | src/mem/pmm.c:72-115 | no two live leaves share an address |
| `CellTree.LeavesTileRoots` | src/mem/pmm.c:258-287 | an address of a root chunk lies in exactly one live leaf, and an address of a live leaf in a root chunk |
| `CellTree.AllFreeMeansRootsWhole` | src/mem/pmm.c:96-115 | with no used leaf and no four free quarters, every root is one free cell |
| `CellTree.NothingFree` | src/mem/pmm.c:119-145 | the free total is zero exactly when no live cell is free, and no free cell is larger than it |
| `CellTree.RestateKeepsShape` | src/mem/pmm.c:329-330 | taking a leaf or giving it back keeps the tree well formed, moves its size in or out of the free total, and leaves at most its parent to merge |
| `CellTree.RootKeepsShape` | src/mem/pmm.c:258-287 | a new root chunk apart from the others keeps the tree well formed and merged |
| `CellTree.SplitKeepsShape` | src/mem/pmm.c:72-92 | splitting a free cell keeps the tree well formed |
| `CellTree.SplitKeepsFreeBytes` | src/mem/pmm.c:72-92 | splitting keeps the free total |
| `CellTree.SplitKeepsMerged` | src/mem/pmm.c:72-92 | after a split only the split cell can have four free quarters |
| `CellTree.OrphanKeepsShape` | src/mem/pmm.c:72-92 | a split that stops part-way because the node pool is exhausted keeps the tree well formed and merged and the free total |
| `CellTree.MergeKeepsShape` | src/mem/pmm.c:96-115 | merging four free quarters keeps the tree well formed |
| `CellTree.MergeKeepsFreeBytes` | src/mem/pmm.c:96-115 | merging keeps the free total |
| `CellTree.MergeKeepsMerged` | src/mem/pmm.c:96-115 | after merging only the parent can still have four free quarters |
| `PhysicalMemory.FindFree` | src/mem/pmm.c:119-145 | the cell found is free, live, large enough and, if asked, ends its request inside the zone |
| `PhysicalMemory.FindFreeComplete` | src/mem/pmm.c:119-145 | a search that finds nothing has missed nothing |
| `PhysicalMemory.FindFreeFirst` | src/mem/pmm.c:119-145 | the cell found is the lowest of its root that fits |
| `PhysicalMemory.ZonesMean` | src/mem/pmm.c:125-129 | a strict search for the DMA zone keeps the request below 16 MB, for the DMA32 zone below 4 GB |
| `PhysicalMemory.FreshBase` | src/mem/pmm.c:329-331 | a free live cell does not start where a used one does |
| `PhysicalMemory.LargestChunk` | src/mem/pmm.c:264-267 | the chunk is the largest cell size that fits |
| `PhysicalMemory.TurnReaches` | src/mem/pmm.c:317-319 | the scan over the roots, starting at the last one used and wrapping round, visits every cell |
| `PhysicalMemory.RequestHonoured` | src/mem/pmm.c:312 | the 64-bit byte count of a request is that of the pages asked for if and only if they are fewer than 2^52; it is always that of their low 52 bits |
| `PhysicalMemory.RequestWraps` | src/mem/pmm.c:312 | a request for 2^52 + 1 pages asks for one |
| `PhysicalMemory.Pmm.constructor` | src/mem/pmm.c:193-200 | an empty allocator satisfies the invariant |
| `PhysicalMemory.Pmm.AppendQuarters` | src/mem/pmm.c:79-88 | the quarters appended are those the pool has room for, in order |
| `PhysicalMemory.Pmm.CellSplit` | src/mem/pmm.c:72-92 | a split replaces a free leaf by four free quarters, or leaves orphan nodes outside the tree, which happens to a large enough free leaf only when the pool is used up; allocations and free total stay |
| `PhysicalMemory.Pmm.MergeQuarters` | src/mem/pmm.c:108-112 | the cells are those of the merge: four quarters retired, the parent free |
| `PhysicalMemory.Pmm.CellTryMerge` | src/mem/pmm.c:96-115 | recursion upwards ends, leaves no four free quarters anywhere and keeps the free total |
| `PhysicalMemory.Pmm.TakeCell` | src/mem/pmm.c:324-332 | the cell taken is at least as large as asked for, and one page or less than four times that unless the pool ran out; the splits take at most four nodes for each time the cell can be quartered |
| `PhysicalMemory.Pmm.SearchRoots` | src/mem/pmm.c:317-322 | the cell found is the first that fits, and the root it is in; none found means none fits |
| `PhysicalMemory.Pmm.AllocPages` | src/mem/pmm.c:311-365 | for n pages below 2^52 the result is a fresh, aligned allocation of at least n pages, of one page or fewer than 4n while pool nodes remain, and zero exactly when no live free cell has n pages; it is the first fit in scan order, inside the zone when a strict search can be met, and the next scan starts at its root; its counts are set to one, the free total drops by its size, and described memory takes at most forty pool nodes |
| `PhysicalMemory.Pmm.FreePages` | src/mem/pmm.c:387-424 | one reference less, or the allocation gone and its bytes free again; an address no allocation starts at changes nothing; no node is taken |
| `PhysicalMemory.Pmm.GiveBack` | src/mem/pmm.c:401-420 | the cell is free, merged upwards, off the list, and its bytes are in the free total |
| `PhysicalMemory.Pmm.LiveFrame` | src/mem/pmm.c:387-424 | a live allocation starts on a page boundary, below the last descriptor |
| `PhysicalMemory.Pmm.PageRef` | src/mem/pmm.c:434-438 | the 32-bit count goes up by one modulo 2^32, or nothing happens beyond the last descriptor |
| `PhysicalMemory.Pmm.PageUnref` | src/mem/pmm.c:440-450 | the 32-bit count goes down by one; the page is freed exactly when that makes it zero |
| `PhysicalMemory.Dec32Is` | src/mem/pmm.c:440-450 | counts go down modulo 2^32 |
| `PhysicalMemory.Pmm.AddRegion` | src/mem/pmm.c:258-287 | while nodes remain the new roots tile the page-aligned region exactly and total memory grows by its size |
| `PhysicalMemory.Pmm.AddRoot` | src/mem/pmm.c:269-285 | one root chunk more, free, and the region covered up to its end |
| `PhysicalMemory.Pmm.AllocFrame` | src/mem/pmm.c:367-369 | a page exactly when any memory is free; the frame is nobody else's, has one reference, no other count changes, and while the pool has nodes exactly one page is gone |
| `PhysicalMemory.Pmm.ExhaustedMeans` | src/mem/pmm.c:311-365 | no free byte is left exactly when no live free cell can serve a page |
| `PhysicalMemory.LeafDepth` | src/mem/pmm.c:72-92 | a cell of described memory can be quartered ten times at most |
| `Stocks.DrawnMore` | src/mem/pmm.c:311-365 | page allocations, up to the first failure, followed by others are page allocations up to the first failure of all of them |
| `Stocks.DrawnMeans` | src/mem/pmm.c:311-365 | while the pool has nodes, a series of page allocations succeeds exactly when there is memory for it |
| `PhysicalMemory.Pmm.RefFrame` | src/mem/pmm.c:434-438 | one reference more for that frame and no other |
| `PhysicalMemory.Pmm.ReleaseFrame` | src/mem/pmm.c:383-385 | one reference less for that frame and no other, the frame gone with the last |
| `PhysicalMemory.Pmm.UnrefFrame` | src/mem/pmm.c:440-450 | one reference less for that frame and no other, the frame gone with the last |
| `PhysicalMemory.Pmm.LetGo` | src/mem/pmm.c:383-450 | either way of giving up a reference: a frame with references has one less and goes with the last, no other count changes, and an address no allocation starts at keeps every allocation |
| `PhysicalMemory.Pmm.AllGivenBack` | src/mem/pmm.c:387-424 | once nothing is allocated, all memory is free and each root is one free cell again |
| `PhysicalMemory.Pmm.AllocationsDisjoint` | src/mem/pmm.c:311-365 | two allocations never overlap |
| `CowMemory.StoreStep` | src/mem/vmm.c:558-560 | a store through a writable entry keeps the invariant and changes that byte in that view and, through a window, in the shared frame, as in the eager machine |
| `CowMemory.MapZeroStep` | src/mem/vmm.c:566-576 | mapping a fresh zeroed page keeps the counts exact |
| `CowMemory.ZeroPageIs` | src/mem/vmm.c:574-575 | a fresh page is 4096 zeros |
| `CowMemory.MapWindowStep` | src/mem/vmm.c:263-274 | mapping a DONT_FREE page takes no reference and keeps the counts exact |
| `CowMemory.ShareStep` | src/mem/vmm.c:264-274 | sharing a page keeps the counts exact and does what copying it would |
| `CowMemory.CowCopyStep` | src/mem/vmm.c:300-314 | copying out on a fault keeps the counts exact and changes nobody's bytes |
| `CowMemory.CowLastStep` | src/mem/vmm.c:292-297 | the last user may simply write; nobody's bytes change |
| `CowMemory.DropStep` | src/mem/vmm.c:317-324 | dropping a mapping keeps the counts exact, and the last one frees the frame |
| `CowMemory.SoleUser` | src/mem/vmm.c:292-297 | a count of one means that the entry at hand is the only one |
| `CowMemory.MapOverExact` | src/mem/vmm.c:128-138 | mapping over an entry keeps the counts exact exactly when the entry owned no frame |
| `CowMemory.MapOverStrands` | src/mem/vmm.c:128-138 | mapping one page twice is such a case |
| `CowMemory.StepRefines` | src/mem/vmm.c:226-324 | every step keeps the invariant and does what the machine that copies eagerly does |
| `CowMemory.RunRefines` | src/mem/vmm.c:226-324 | every run of any interleaving of spaces keeps the invariant and is, state by state, a run of the machine that copies every page at fork |
| `PageTables.PathChild` | src/mem/vmm.c:27-30 | each index picks the next table on the way to a page |
| `PageTables.IndicesInjective` | src/mem/vmm.c:27-30 | the four index slices are jointly injective |
| `PageTables.AddressSlices` | src/mem/vmm.c:27-30 | shifting and masking the address gives the slices of its page number |
| `PageTables.Walk` | src/mem/vmm.c:163-187 | the table walk finds exactly the entry of the flat map |
| `PageTables.EmptySlot` | src/mem/vmm.c:40-52 | below an empty slot nothing is mapped |
| `PageTables.LinkKeeps` | src/mem/vmm.c:40-52 | hanging a fresh table into an empty slot changes no translation |
| `PageTables.SetLeafKeeps` | src/mem/vmm.c:128-138 | writing one page-table entry changes the translation of that page only |
| `PageTables.NewSpaceKeeps` | src/mem/vmm.c:217-224 | a fresh root with an empty user half is a space with nothing mapped |
| `PageTables.SpacesApart` | src/mem/vmm.c:217-224 | tables of different spaces are different frames |
| `PageRights.Access` | src/mem/vmm.c:163-176 | a user access goes through exactly when all four entries on the way are present and have the USER bit, and for a write the WRITE bit |
| `PageRights.OpenMeans` | src/mem/vmm.c:129-138 | where every entry has the USER bit, a mapped page can be read, and written exactly if its own entry says so |
| `PageRights.MappedOpen` | src/mem/vmm.c:128-138 | after a page is mapped, user accesses get through exactly if its entry and every entry that was on the way before have the USER bit |
| `PageRights.WayLinked` | src/mem/vmm.c:40-51 | a new table on the way is the only change to the entries of the way |
| `PageRights.LowFlags` | src/mem/vmm.c:236 | the flags that a fork copies for a table keep the USER bit |
| `AddressSpaces.FewUsers` | src/mem/vmm.c:267-273 | with all memory described, no frame has enough users to wrap its 32-bit count |
| `AddressSpaces.Vmm.constructor` | src/mem/vmm.c:118-126 | with no space yet everything allocated is the rest of the kernel's, its sizes and counts are on record, and the invariant holds |
| `AddressSpaces.Vmm.AllocFrame` | src/mem/vmm.c:32-38 | the frame is new to every account |
| `AddressSpaces.Vmm.NewTable` | src/mem/vmm.c:32-51 | a fresh zeroed table hangs in the slot with the flags given, exactly when a frame is left; no translation changes |
| `AddressSpaces.Vmm.GetOrCreate` | src/mem/vmm.c:40-51 | the table in the slot, made writable and with the USER bit asked for if there was none; no translation changes; fails exactly when there is none and no frame is left |
| `AddressSpaces.Vmm.PageTable` | src/mem/vmm.c:129-134 | the page table of the page, with as many frames taken as tables were missing and exactly the tables on its way added; entries on the way stay, new ones are writable and have the USER bit exactly if asked for; fails only by running out before the last of them |
| `AddressSpaces.Vmm.NextTable` | src/mem/vmm.c:129-134 | one of the three lookups: the next table on the way, made if it is missing, with the same account of flags and frames |
| `AddressSpaces.Vmm.MapPage` | src/mem/vmm.c:128-138 | on success exactly this page translates to the new entry, and exactly the missing tables on its way were taken, their entries writable and with the USER bit exactly if the page has it, the entries that were there as they were; on failure no translation changes and memory ran out before the last of them; it cannot fail where the page table exists |
| `AddressSpaces.TabledMeans` | src/mem/vmm.c:128-138 | while the pool has nodes, the tables of a page can be had exactly when there are as many free pages as are missing |
| `AddressSpaces.Vmm.SetPte` | src/mem/vmm.c:134-137 | exactly this page's translation changes |
| `AddressSpaces.Vmm.GetPte` | src/mem/vmm.c:163-187 | the entry found is that of the flat map |
| `AddressSpaces.Vmm.UnmapPage` | src/mem/vmm.c:152-161 | exactly this page is unmapped |
| `AddressSpaces.Vmm.HandleCowFault` | src/mem/vmm.c:284-315 | succeeds exactly on a marked page, unless others have its frame and memory is exhausted; exactly this entry changes: writable, unmarked, every other flag kept, on a new frame exactly when others have the old one, and then exactly one frame is taken; nobody sees a byte change, counts stay exact; a failure changes nothing |
| `AddressSpaces.Vmm.AllocPage` | src/mem/vmm.c:301-306 | a frame that was nobody's, with the given bytes and one reference; none exactly when memory is exhausted |
| `AddressSpaces.Vmm.CopyOut` | src/mem/vmm.c:300-314 | one of several users gets a frame of its own with the same bytes, exactly when a frame is left, and takes that one only |
| `AddressSpaces.Vmm.DropRef` | src/mem/vmm.c:312-313 | one reference less for a page that keeps other users |
| `AddressSpaces.Vmm.MapFresh` | src/mem/vmm.c:501-505 | a zeroed page with exactly the rights asked for appears, and no other entry and no view changes; there is a frame exactly when memory is left; the frame and the missing tables on the way are taken, or memory ran out on the way and the one frame leaks; while the pool has nodes the page is mapped exactly when there is memory for it and its missing tables |
| `AddressSpaces.PagedMeans` | src/mem/vmm.c:501-505 | while the pool has nodes, a fresh page is mapped exactly when there is memory for it and its missing tables; a page that is not mapped leaves no memory |
| `AddressSpaces.Vmm.LeakPage` | src/mem/vmm.c:503-505 | the frame stays allocated and no entry owns it |
| `AddressSpaces.Vmm.MapWindow` | src/mem/vmm.c:263-274 | a DONT_FREE entry shows the shared frame and owns no reference; exactly the missing tables are taken; it fails only by running out of frames for them, while the pool has nodes exactly when fewer are free than are missing |
| `AddressSpaces.Vmm.Release` | src/mem/vmm.c:431-435 | after an entry is cleared: a user page has one reference less and goes with the last; a window inside a foreign allocation changes nothing; a window on the first frame of one takes a reference of the rest of the kernel, which the invariant then notices for good |
| `AddressSpaces.Vmm.DropPage` | src/mem/vmm.c:431-435 | exactly this entry goes and memory is only given back; the invariant, which has the counts of foreign allocations in it, survives exactly when the page is no window on the first frame of a foreign allocation |
| `AddressSpaces.UserOnly` | src/mem/vmm.c:226-230 | only pages of the user half of existing spaces are ever mapped |
| `AddressSpaces.Vmm.CreateSpace` | src/mem/vmm.c:217-224 | a new space with nothing mapped and the kernel half of the root, apart from all others, exactly when a frame is left; no view changes |
| `AddressSpaces.Vmm.Load` | src/mem/vmm.c:163-176 | a user read gives the byte the view says, exactly when all entries on the way have the USER bit, which is always where only such pages are mapped |
| `AddressSpaces.Vmm.UserAccess` | src/mem/vmm.c:163-176 | the entry a user access goes through, exactly when the tables let it through |
| `AddressSpaces.Vmm.Store` | src/mem/vmm.c:557-560 | a user write goes through exactly when all entries on the way are writable and have the USER bit, where only such pages are mapped exactly when the page's entry is writable; it then changes that one byte of that one view |
| `Forking.ShareEntry` | src/mem/vmm.c:264-274 | both spaces have the page, byte for byte, with the same flags, read-only and marked unless it is a window, and no other entry changes |
| `Forking.AddRef` | src/mem/vmm.c:272 | one reference more for a user page |
| `Forking.ForkPt` | src/mem/vmm.c:263-275 | exactly the mapped pages of the table are then in both spaces, with the same marked entries |
| `Forking.ForkLevel` | src/mem/vmm.c:231-278 | exactly the mapped pages below the pair of tables are in both spaces; a table is taken for each one below the parent's, or memory runs out before the last of them and only some pages are shared |
| `Forking.ForkSlot` | src/mem/vmm.c:232-261 | one slot at one level: all below it is shared at the cost of as many tables as the parent has there, unless memory runs out before the last of them |
| `Forking.SlotTables` | src/mem/vmm.c:232-261 | the tables of a slot are none, or the one in it and those below that |
| `Forking.RootAndBelow` | src/mem/vmm.c:226-230 | the tables of a space are its root and those below the user half of it |
| `Forking.ForkSpace` | src/mem/vmm.c:226-282 | there is a child exactly when a frame is left; it sees the parent's pages byte for byte through the same marked entries, everyone else sees what they saw and no other entry changes; while the pool has nodes all pages are copied exactly when there are as many free pages before the fork as the parent has tables, and exactly these are taken |
| `TearDown.ReleaseEntry` | src/mem/vmm.c:317-324 | exactly one reference is dropped for an owned page and none for a window |
| `TearDown.FreePt` | src/mem/vmm.c:330-334 | every page of the table loses one reference |
| `TearDown.FreePte` | src/mem/vmm.c:331-333 | one entry of the table is gone, with one reference if it owns its page |
| `TearDown.FreeTablePage` | src/mem/vmm.c:330-361 | the table frame is freed, once |
| `TearDown.FreeLevel` | src/mem/vmm.c:336-373 | everything below the table is gone: one reference per page, each table freed once |
| `TearDown.FreeSlot` | src/mem/vmm.c:336-373 | everything below one slot is gone, its table last |
| `TearDown.DestroySpace` | src/mem/vmm.c:363-374 | the space is gone, other spaces keep their tables, their entries and their view, counts stay exact, and memory is only given back |
| `TearDown.AllGone` | src/mem/vmm.c:363-374 | when the last space is gone and nothing leaked, the pages still allocated are the rest of the kernel's and free memory is what they leave |
| `Syscalls.GrowPages` | src/mem/vmm.c:498-507 | what was mapped stays; what is new is zeroed, writable, not executable, and in the range; at most one frame is lost; while the pool has nodes all of the range is there exactly when there was memory before for the absent pages and their tables, and exactly that is taken |
| `Syscalls.GrowNext` | src/mem/vmm.c:498-507 | one more page of the loop, under the same account of what was mapped, taken and lost |
| `Syscalls.GrownMeans` | src/mem/vmm.c:498-507 | while the pool has nodes, a range of pages comes whole exactly when there is memory for the absent ones and for their tables, each table counted once |
| `Syscalls.GrowPage` | src/mem/vmm.c:500-505 | a page that is there stays and takes nothing; an absent one comes zeroed, with its frame and missing tables taken, or there was no frame, or its one frame leaks, under the condition of PagedMeans |
| `Syscalls.ShrinkPages` | src/mem/vmm.c:429-436 | exactly the entries of the range are gone and memory is only given back; the invariant survives exactly when none of them was a window on the first frame of a foreign allocation |
| `Syscalls.Brk` | src/mem/vmm.c:483-520 | the start is 0x400000 at first; below the start nothing changes; of a higher break only pages that start at or above the old break and below the new one come, zeroed, writable and not executable, and all of these when it is reached without losing a frame, which while the pool has nodes is exactly when there was memory before for the absent ones and their tables; a lower one is always reached and exactly the pages that start between the two go, with the invariant under the condition of ShrinkPages |
| `Syscalls.PageUpIs` | src/mem/vmm.c:326-328 | the pages below a rounded-up address are those that start below the address |
| `Syscalls.Munmap` | src/mem/vmm.c:422-450 | exactly the pages go whose distance in bytes from the page of the address is less than the length, and the first VMA that starts at the address is off the list; the invariant survives under the condition of ShrinkPages; fails exactly without an address space |
| `Syscalls.FindVma` | src/mem/vmm.c:563-564 | the first VMA holding the address, or none |
| `Syscalls.PageFault` | src/mem/vmm.c:553-580 | a write to a copy-on-write page changes exactly its entry and nobody's view, takes one frame exactly when others have the old one, and fails exactly when it would have to and memory is exhausted; an absent page inside a VMA comes zeroed with the rights of the first VMA holding it, exactly when a frame is left, unless the frame leaks, under the condition of PagedMeans; outside all VMAs nothing happens; a failure changes nothing |
| `Syscalls.DemandZero` | src/mem/vmm.c:565-576 | the page comes zeroed with the VMA's rights, exactly when a frame is left, unless the frame leaks, under the condition of PagedMeans; exactly its frame and missing tables are taken |
| `Syscalls.Rights` | src/mem/vmm.c:569-571 | a demand-paged entry has the USER bit, the NX bit exactly if the VMA is not executable, and no other |
| `Processes.StaysApart` | src/mem/vmm.c:217-282 | processes never share a space |
| `Processes.Isolated` | src/mem/vmm.c:226-580 | a call of one process changes no page, no break and no VMA of another |
| `Processes.RunIsolated` | src/mem/vmm.c:226-580 | over any run, a process that does nothing keeps its memory byte for byte, whatever the others do, its parent and children included |
| `Processes.ChildSees` | src/mem/vmm.c:226-282 | if there are as many free pages as the parent has tables, a child has exactly the pages its parent had at the fork, with the same bytes |
| `Processes.CallAffords` | src/mem/vmm.c:217-580 | a call loses no frame, takes no more than its bound and does not fall short, if memory covers the bound: a spawned process is there, a forked one has all pages of its parent, a break is reached |
| `Processes.RunAffords` | src/mem/vmm.c:217-580 | a script whose bounds, summed up from the calls alone, free memory and pool nodes cover at the start loses no frame, and none of its calls falls short |
| `MemoryRuns.System.Spawn` | src/mem/vmm.c:217-224 | one process more, with an empty memory, exactly when a frame is left |
| `MemoryRuns.System.ForkTask` | src/mem/vmm.c:226-282 | one process more, with the break and VMAs of its parent and a copy of its memory, for as many frames as the parent has tables, or of a part of it when memory runs out |
| `MemoryRuns.System.Fault` | src/mem/vmm.c:553-580 | what the process sees after a fault: a marked page is its own, an absent one zeroed; which frames were taken, and whether one was lost |
| `MemoryRuns.System.WriteByte` | src/mem/vmm.c:553-580 | a store when the page is writable, else a fault and then a store if it has become writable; the byte then reads back |
| `MemoryRuns.System.StoreByte` | src/mem/vmm.c:557-560 | exactly one byte of one page changes, exactly when the page is writable |
| `MemoryRuns.System.LoadByte` | src/mem/vmm.c:163-176 | a process reads exactly the bytes it sees, on every page it has |
| `MemoryRuns.System.MoveBreak` | src/mem/vmm.c:483-520 | what the process sees after sys_brk, what it took, and whether a frame was lost |
| `MemoryRuns.System.UnmapRange` | src/mem/vmm.c:422-450 | what the process sees after sys_munmap |
| `MemoryRuns.System.ShowFrame` | src/mem/vmm.c:128-138 | a window opens, unless the page is taken or memory runs out before the last missing table |
| `MemoryRuns.System.ExitTask` | src/mem/vmm.c:363-374 | the process and its memory are gone, and nobody else's |
| `MemoryRuns.System.Step` | src/mem/vmm.c:217-580 | any call does to the processes, to free memory and to the count of lost frames what its specification on private memories says, and keeps the invariant |
| `MemoryRuns.System.Run` | src/mem/vmm.c:217-580 | any script of calls is, state by state, a run of processes with memories of their own, with the free memory and the number of frames lost of every state |
| `MemoryRuns.RunAll` | src/mem/vmm.c:217-580 | a script and the end of every process leave no space, and as many frames lost as the run counts: none more if the script could be afforded |
| `MemoryRuns.WholeRun` | src/mem/vmm.c:217-580 | from any state of the allocator, after any script and the end of every process, the rest of the kernel has its allocations and counts as before, and besides these exactly the lost frames are allocated, as many as the run counts; if the free memory at the start covers what the script's calls may need, none is lost, free memory is what it was, and no call fell short |
| `MemoryRuns.LoseFrame` | src/mem/vmm.c:501-505 | with two pages of memory the first page of a new space is lost |
| `MemoryRuns.LoseForeign` | src/mem/vmm.c:422-436 | unmapping a window on the first frame of a foreign allocation breaks the invariant |
| `MemoryRuns.ShutOut` | src/mem/vmm.c:128-138 | a page mapped with the USER bit below tables made without it cannot be read |
| `Bits.Bitreverse16IsReverse` | tools/stb_image.h:4107-4114 | four masked swaps reverse the low sixteen bits and drop the rest |
| `Bits.BitReversed` | tools/stb_image.h:4116-4122 | reversing sixteen and shifting reverses any number of bits up to sixteen |
| `Bits.ReverseTwice` | tools/stb_image.h:4116-4122 | reversal undoes itself on the low bits |
| `CanonicalCodes.KraftIsEdge` | tools/stb_image.h:4138-4149 | the code space the assigned codes take is the Kraft sum |
| `CanonicalCodes.CodesOrdered` | tools/stb_image.h:4138-4149 | codes come in (length, symbol) order and take disjoint parts of the code space |
| `CanonicalCodes.PrefixFree` | tools/stb_image.h:4138-4149 | no code is a prefix of another |
| `CanonicalCodes.CodeFits` | tools/stb_image.h:4143-4145 | under an accepted Kraft sum every code fits its length |
| `CanonicalCodes.MatchUnique` | tools/stb_image.h:4243-4271 | at most one symbol's code begins a bit string |
| `CanonicalCodes.EdgesCovered` | tools/stb_image.h:4229-4235 | bits between two preshifted limits spell a code of that length |
| `CanonicalCodes.SlotsApart` | tools/stb_image.h:4154-4157 | symbols take different places in the sorted table |
| `HuffmanTables.FastNeverOverwrites` | tools/stb_image.h:4158-4164 | when a symbol writes an entry of the lookup table, no earlier symbol has written it |
| `HuffmanTables.LimitTest` | tools/stb_image.h:4143-4145 | the test after each length is exactly that the codes so far fit |
| `HuffmanTables.SpreadCode` | tools/stb_image.h:4159-4163 | exactly the lookup indices whose low bits spell the code get the entry |
| `HuffmanTables.Tally` | tools/stb_image.h:4130-4134 | the counts per length |
| `HuffmanTables.Huffman.AssignCodes` | tools/stb_image.h:4135-4150 | succeeds exactly when the Kraft sum is at most one; first codes and limits are those of section 3.2.2 of RFC 1951 |
| `HuffmanTables.Huffman.PlaceSymbol` | tools/stb_image.h:4152-4166 | the symbol is in its slot and in every lookup entry its code owns |
| `HuffmanTables.Huffman.Place` | tools/stb_image.h:4151-4167 | all used symbols are placed |
| `HuffmanTables.Huffman.Build` | tools/stb_image.h:4124-4169 | accepts exactly the length lists with Kraft sum at most one, and then the tables are those of the canonical code |
| `BitReading.FastHit` | tools/stb_image.h:4263-4269 | a nonzero lookup entry names the matching symbol and its length |
| `BitReading.FastMiss` | tools/stb_image.h:4263-4270 | a zero lookup entry means that the bits lie above every code of up to nine bits |
| `BitReading.SlowIndex` | tools/stb_image.h:4229-4237 | the slow path's index is in range and its size check holds |
| `BitReading.Reader.FillBits` | tools/stb_image.h:4202-4212 | the bit stream is unchanged and at least 25 bits are buffered; the overflow test never fires |
| `BitReading.Reader.AddByte` | tools/stb_image.h:4205-4210 | one byte moves into the buffer, zero past the end; the stream is unchanged |
| `BitReading.Reader.Receive` | tools/stb_image.h:4214-4222 | the next bits of the stream, and exactly these are consumed |
| `BitReading.Reader.DecodeSlow` | tools/stb_image.h:4224-4241 | the matching symbol and its length consumed, or -1 exactly when none matches |
| `BitReading.Reader.Decode` | tools/stb_image.h:4243-4271 | the symbol whose canonical code comes next, its bits consumed; -1 exactly when none matches or the padding is used up |
| `BitReading.Reader.PadBits` | tools/stb_image.h:4247-4253 | sixteen implicit zero bits at the end of the input leave the stream as it is |
| `BitReading.DecodedOnce` | tools/stb_image.h:4243-4271 | the canonical answer is unique |
| `BitReading.DecodeMessage` | tools/stb_image.h:4243-4271 | decoding symbol by symbol inverts encoding, whatever follows the message |
| `PngFilters.Paeth` | tools/stb_image.h:4657-4668 | the reformulated predictor equals the PaethPredictor of section 6.6 of RFC 2083 for all integers |
| `PngFilters.FirstRowPredicts` | tools/stb_image.h:4648-4655 | the first-row replacements predict as the named filters do below a row of zeros |
| `PngFilters.FilterTypes` | tools/stb_image.h:4638-4646 | the predictions of filter types 0 to 4 of section 6 of RFC 2083 |
| `PngFilters.EncodeInjective` | tools/stb_image.h:4737-4787 | filtered rows determine the image and the filter types |
| `PngFilters.UnfilterNone` | tools/stb_image.h:4756-4758 | copies the row |
| `PngFilters.UnfilterSub` | tools/stb_image.h:4759-4763 | reconstructs a row filtered with Sub |
| `PngFilters.UnfilterUp` | tools/stb_image.h:4764-4767 | reconstructs a row filtered with Up |
| `PngFilters.UnfilterAverage` | tools/stb_image.h:4768-4773 | reconstructs a row filtered with Average |
| `PngFilters.UnfilterPaeth` | tools/stb_image.h:4774-4779 | reconstructs a row filtered with Paeth |
| `PngFilters.UnfilterAverageFirst` | tools/stb_image.h:4780-4784 | reconstructs a first row filtered with Average |
| `PngFilters.UnfilterRow` | tools/stb_image.h:4755-4785 | the row written filters back to the input, and the other row of the buffer is untouched |
| `PngFilters.ReconstructRow` | tools/stb_image.h:4738-4787 | the row lands in its half of the two-row buffer, predicted from the row above |
| `PngFilters.Reconstruct` | tools/stb_image.h:4725-4787 | fails exactly on too little data or a filter type above 4; otherwise the rows are those the data encodes |
| `PngFilters.RoundTrip` | tools/stb_image.h:4737-4787 | every image under every choice of filters comes back |
| `BlockCache.SetKeepsView` | src/fs/bcache.c:27-59 | touching a slot, or loading a page into an empty one, changes no read |
| `BlockCache.CachedShows` | src/fs/bcache.c:100 | a cached page is what reads see |
| `BlockCache.WriteBackKeepsView` | src/fs/bcache.c:37-46 | writing a slot back and cleaning or emptying it changes no read |
| `BlockCache.StoreChangesView` | src/fs/bcache.c:134-135 | storing sectors into a page changes the reads of exactly these |
| `BlockCache.CleanIsFlat` | src/fs/bcache.c:144-154 | with no dirty page left, reads see what the device stores |
| `BlockCache.Cache.constructor` | src/fs/bcache.c:21-25 | an empty cache shows the disks |
| `BlockCache.Cache.Find` | src/fs/bcache.c:27-35 | the slot that holds the page, made the most recent; no read changes |
| `BlockCache.Cache.Evict` | src/fs/bcache.c:37-46 | the slot is empty, its page written back if dirty; no read changes |
| `BlockCache.Cache.Alloc` | src/fs/bcache.c:48-74 | an empty slot, or the least recently used one evicted; no read changes |
| `BlockCache.Cache.Fetch` | src/fs/bcache.c:91-98 | the page is in a slot; fails exactly when it was not cached and the device cannot read it |
| `BlockCache.Cache.ReadChunk` | src/fs/bcache.c:85-104 | the sectors of one page as the flat disk has them; fails exactly when the page is neither cached nor readable |
| `BlockCache.Cache.Read` | src/fs/bcache.c:76-106 | exactly what the flat disk holds, and no later read changes; fails only when a page of the range cannot be read |
| `BlockCache.Cache.WriteWhole` | src/fs/bcache.c:123-135 | a page written whole is not read first |
| `BlockCache.Cache.WriteInto` | src/fs/bcache.c:134-135 | part of a cached page changes |
| `BlockCache.Cache.WriteChunk` | src/fs/bcache.c:117-140 | exactly the sectors of one page change; fails exactly when the page is neither cached nor readable nor filled |
| `BlockCache.Cache.WritePage` | src/fs/bcache.c:117-140 | sectors within one page change, and the page is read first only if it is not cached and they do not fill it |
| `BlockCache.Cache.WritePart` | src/fs/bcache.c:117-140 | exactly these sectors of the page change in the view, the page being read from its device first if it is not cached; fails only when it cannot be read, and then the view is the same |
| `BlockCache.Cache.Write` | src/fs/bcache.c:108-142 | exactly the written sectors change; on failure a prefix of them has, and a page of the range cannot be read |
| `BlockCache.Cache.Flush` | src/fs/bcache.c:144-158 | the device, or all devices, then store what reads see, and no read changes |
| `FatLayout.WordPlace` | src/fs/fat32.c:23-24 | a cluster's word lies inside one sector of the table |
| `FatLayout.WordsApart` | src/fs/fat32.c:23-24 | different clusters' words do not overlap |
| `FatLayout.InOrder` | src/fs/fat32.c:11-24 | the first table starts behind the reserved sectors, the copies, the words of a copy and the clusters follow each other, and the first cluster starts where the last copy ends |
| `FatLayout.SectorsTiled` | src/fs/fat32.c:11-24 | every sector behind the reserved ones is a row of exactly one table copy or a sector of exactly one cluster |
| `FatLayout.WordChanged` | src/fs/fat32.c:31-46 | rewriting one word in one copy changes no other word and no cluster |
| `FatLayout.MergeIs` | src/fs/fat32.c:37 | a new word has the low 28 bits of the value and the top four of the old word |
| `FatLayout.ClusterChanged` | src/fs/fat32.c:11-21 | rewriting one cluster changes no table word and no other cluster |
| `FatVolume.TablesSet` | src/fs/fat32.c:31-46 | both table copies stay equal |
| `FatVolume.Volume.DataIs` | src/fs/fat32.c:11-18 | the contents of cluster c are the sectors from reserved + copies * size + (c - 2) * sectors per cluster on |
| `FatVolume.Volume.FatIs` | src/fs/fat32.c:22-30 | the entry of cluster c is the low 28 bits of the word at byte 4c of the first table |
| `FatVolume.Volume.FatEntry` | src/fs/fat32.c:22-30 | the entry, without its top four bits, through any state of the cache |
| `FatVolume.Volume.SetCopy` | src/fs/fat32.c:31-44 | one word of one copy changes, its top four bits kept; no other word and no cluster does |
| `FatVolume.Volume.FatSetEntry` | src/fs/fat32.c:31-46 | exactly this entry changes, in both copies, which stay equal |
| `FatVolume.Volume.ClusterRead` | src/fs/fat32.c:14-18 | the cluster's bytes |
| `FatVolume.Volume.ClusterWrite` | src/fs/fat32.c:19-21 | exactly this cluster changes |
| `FatChains.ChainsDisjoint` | src/fs/fat32.c:22-71 | chains share no cluster |
| `FatChains.ChainAcyclic` | src/fs/fat32.c:22-71 | a chain repeats no cluster |
| `FatChains.OneLayout` | src/fs/fat32.c:22-71 | the chains of a table are determined by it |
| `FatChains.ClustersSplit` | src/fs/fat32.c:47-71 | free clusters and the lengths of all chains add up to the volume |
| `FatChains.Reclaimed` | src/fs/fat32.c:65-71 | when one chain goes, another comes and the directory's may grow, the clusters of the old chain are free but for those taken |
| `FatChains.TakeKeeps` | src/fs/fat32.c:47-59 | a cluster taken is a chain of its own; the others stay |
| `FatChains.LinkKeeps` | src/fs/fat32.c:60-64 | linking extends one chain; the others stay |
| `FatChains.Freed` | src/fs/fat32.c:65-71 | the walk that clears links ends on every table, cyclic ones included |
| `FatChains.FreedClears` | src/fs/fat32.c:65-71 | entries are only cleared, never changed otherwise |
| `FatChains.FreedChain` | src/fs/fat32.c:65-71 | freeing a chain removes it and no other entry changes |
| `FatFiles.AllocCluster` | src/fs/fat32.c:47-59 | the lowest free cluster, zeroed and marked as an end; none exactly when none is free |
| `Bits.ZerosAre` | src/fs/fat32.c:51-53 | a new cluster is all zeros |
| `FatFiles.FreeChain` | src/fs/fat32.c:65-71 | ends, and clears exactly the entries of the walk |
| `FatFiles.ReadChain` | src/fs/fat32.c:199-212 | the chain's first bytes, bounded by the file size and the buffer |
| `FatFiles.ExtendFile` | src/fs/fat32.c:239-241 | the lowest free cluster becomes the new last one, linked; none exactly when none is free |
| `FatFiles.LinkCluster` | src/fs/fat32.c:60-64 | a chain's last cluster points to the new one; the others stay |
| `FatFiles.StoreCluster` | src/fs/fat32.c:239-246 | one cluster more, the lowest free one, holds the next bytes; fails only when none is free |
| `FatFiles.StoreData` | src/fs/fat32.c:237-247 | exactly as many clusters as the bytes need, the lowest free one first, become a new chain that holds the bytes, and nothing in any chain changed; fails exactly when fewer are free, and then all of them are taken |
| `FatNames.NameTo83` | src/fs/fat32.c:87-101 | the padded upper-case form |
| `FatNames.To83Is` | src/fs/fat32.c:87-101 | a base of up to eight characters and an extension of up to three, in upper case, each filled up with spaces |
| `FatNames.Cases` | src/fs/fat32.c:77-91 | the case of the 26 letters changes, and of no other character |
| `FatNames.To83IgnoresCase` | src/fs/fat32.c:87-101 | case makes no difference to the stored form |
| `FatNames.NameRoundTrip` | src/fs/fat32.c:72-101 | a canonical stored name survives being read and stored again |
| `FatNames.HitIsStored` | src/fs/fat32.c:114-129 | on canonical entries the second comparison finds nothing the first does not |
| `FatNames.DotsNeverHit` | src/fs/fat32.c:114-129 | the entries of the directory itself and its parent are never found by a canonical name |
| `FatDirectory.PutInDirectory` | src/fs/fat32.c:250-255 | rewriting an entry in its cluster rewrites it in the directory and nothing else |
| `FatDirectory.RedirectedIs` | src/fs/fat32.c:252-254 | the entry names the new first cluster and 32 bits of the size; name and attributes stay |
| `FatDirectory.FieldsRead` | src/fs/fat32.h:41-54 | name, directory bit, first cluster and size are read from the fields of the packed record |
| `FatDirectory.FieldsWritten` | src/fs/fat32.c:250-266 | a changed or new entry is the packed record with the cluster halves and the low 32 bits of the size, and for a new file the name and the archive attribute, set; every other field stays |
| `FatDirectory.Markers` | src/fs/fat32.c:111-113 | deleted entries and parts of long names do not count |
| `FatDirectory.SearchOnce` | src/fs/fat32.c:102-136 | a search has one outcome |
| `FatTree.ChangeKeepsInv` | src/fs/fat32.c:215-318 | a change of one entry that fits keeps chains and directories in order, every chain owned by exactly one entry or by the root directory, and every directory reached from the root |
| `FatTree.ChangeKeepsClaims` | src/fs/fat32.c:215-318 | such a change leaves every chain the root directory's or owned by an entry |
| `FatTree.ChangeKeepsWays` | src/fs/fat32.c:215-318 | such a change leaves every directory on a way of entries from the root |
| `FatTree.ClustersAccounted` | src/fs/fat32.c:47-71 | free clusters and the chains of the root directory and of what live entries own add up to the volume: no cluster is lost |
| `FatTree.EmptyVolume` | src/fs/fat32.c:22-71 | a volume of any size with an empty root directory satisfies the invariant |
| `FatTree.ChangeKeepsOthers` | src/fs/fat32.c:215-318 | a change of one name's entry leaves every other name's lookup and contents alone |
| `FatTree.SearchSame` | src/fs/fat32.c:102-136 | searches that neither the old nor the new entry answers come out the same, also when an end marker is replaced |
| `FatFileSystem.ScanCluster` | src/fs/fat32.c:109-130 | the first answer of the cluster, or the end marker, or neither |
| `FatFileSystem.FindInDir` | src/fs/fat32.c:102-136 | the first answer of the directory and its place, or that there is none |
| `FatFileSystem.ReadFile` | src/fs/fat32.c:194-213 | the bytes stored under the name, cut to the buffer; fails if and only if no plain file has the name |
| `FatFileSystem.Restore` | src/fs/fat32.c:233-247 | the old chain is gone, every other is kept, and the new one holds the bytes in exactly as many clusters as they need, the lowest of the free and the old ones first; fails exactly when these are too few, and then all are taken |
| `FatFileSystem.ScanFree` | src/fs/fat32.c:260-262 | the first free entry of the cluster |
| `FatFileSystem.PutEntry` | src/fs/fat32.c:263-267 | exactly one entry of the cluster changes |
| `FatFileSystem.ExtendDir` | src/fs/fat32.c:272 | the directory grows by one cluster of end markers, exactly when one is free; every other chain is kept |
| `FatFileSystem.InsertEntry` | src/fs/fat32.c:257-274 | the first free slot of the directory takes the entry, after growing it by one cluster exactly if all are used; fails exactly when they are and no cluster is free, and then changes nothing |
| `FatFileSystem.EnterAt` | src/fs/fat32.c:261-269 | the entry is in the first free slot of the directory and nowhere else |
| `FatFileSystem.WriteDone` | src/fs/fat32.c:215-277 | a write that reaches its end keeps the invariant, stores the file, touches no other, and gives back the old chain |
| `FatFileSystem.MovedChains` | src/fs/fat32.c:233-255 | through a write or an unlink, every chain but the file's and the directory's stays, and the file's old clusters are free but for those taken |
| `FatFileSystem.WriteFile` | src/fs/fat32.c:230-277 | succeeds exactly when the free clusters and those of the old data cover the new data and a directory that has to grow; the name then holds the bytes (as many as the size field can say) in exactly the clusters they need, every other name in every directory finds the same entry and contents, the old chain's clusters are free but for those taken, and the invariant holds; when it fails no cluster is left, and the volume satisfies the invariant in some layout exactly when none was at hand or the lowest one was the head of the old data |
| `FatFileSystem.Overwrite` | src/fs/fat32.c:233-255 | the same, for a name that had an entry |
| `FatFileSystem.WriteNew` | src/fs/fat32.c:237-275 | the same, for a name that had none |
| `FatFileSystem.FailedWrite` | src/fs/fat32.c:233-275 | what a failed write leaves satisfies the invariant in some layout exactly when it found no cluster at hand or the lowest one was the head of the old data |
| `FatFileSystem.OrphanLeft` | src/fs/fat32.c:237-247 | otherwise no layout satisfies the invariant: a chain is nobody's |
| `FatFileSystem.SameHeadsSurvive` | src/fs/fat32.c:233-247 | a chain with the head of the old one takes its place in the entry that names it |
| `FatFileSystem.LossyVolume` | src/fs/fat32.c:233-247 | a volume in order with one free cluster below a one-cluster file, where a failed overwrite breaks the invariant |
| `FatFileSystem.Unlink` | src/fs/fat32.c:305-317 | succeeds exactly on plain files; the name is then gone, every other name as before, the free clusters grow by exactly the file's chain, and the invariant holds |
| `FatFileSystem.Unlinked` | src/fs/fat32.c:310-316 | freeing the chain and marking the entry keep the invariant, remove the name, touch no other, and take exactly the file's chain away |
| `FatFileSystem.AllFreed` | src/fs/fat32.c:65-71 | once a chain is off the table, exactly its clusters are free that were not |
| `FatFileSystem.Erase` | src/fs/fat32.c:310-316 | the free clusters grow by exactly the file's chain, the name is gone, every other name as before |
| `FatFileSystem.WriteThenRead` | src/fs/fat32.c:194-277 | the write succeeds exactly when there are clusters for it; the bytes then come back exactly when their number is below 2^32, the range of the size field |
| `FatFileSystem.RecordedLoses` | src/fs/fat32.c:254 | a file of 2^32 bytes is recorded as empty |
| `FatPaths.ResolvePath` | src/fs/fat32.c:137-156 | the entry the path leads to, or that it leads nowhere; relative paths lead nowhere |
| `FatPaths.StepTo` | src/fs/fat32.c:151-153 | one part further |
| `FatPaths.PartsJoin` | src/fs/fat32.c:145-150 | the parts of a path are those before a slash and then those after it |
| `FatPaths.PartsTwo` | src/fs/fat32.c:145-150 | two names around a slash are the two parts |
| `FatPaths.LastSlash` | src/fs/fat32.c:219-220 | the place of the last slash |
| `FatPaths.WalkSame` | src/fs/fat32.c:137-156 | paths to what exists lead to the same entry after another name changed |
| `FatPaths.WritePath` | src/fs/fat32.c:215-277 | succeeds exactly when its directory is there and the clusters at hand suffice; the path then holds the bytes, every file at another place holds what it held, and the old chain's clusters are free but for those taken; without its directory nothing changes, without clusters the volume is what WriteFile leaves |
| `FatPaths.ReadPath` | src/fs/fat32.c:194-213 | what the path holds, cut to the buffer; succeeds if and only if it leads to a plain file |
| `FatPaths.UnlinkPath` | src/fs/fat32.c:279-318 | succeeds if and only if the path leads to a plain file; it then leads nowhere, every file at another place holds what it held, and the free clusters grow by exactly the file's chain |
| `FatPaths.WriteThenReadPath` | src/fs/fat32.c:194-277 | the write succeeds exactly when its directory is there and there are clusters for it; the bytes then come back by path exactly when their number is below 2^32 |
| `FatRuns.WhatStored` | src/fs/fat32.c:194-213 | a name stands for a plain file with these contents exactly when they are stored under it |
| `FatRuns.WhatAlias` | src/fs/fat32.c:87-136 | names with the same stored form stand for the same |
| `FatRuns.ChangesOne` | src/fs/fat32.c:215-318 | a change that leaves other names alone is the update of a flat map at one stored name |
| `FatRuns.CheapFits` | src/fs/fat32.c:215-277 | a write with a cluster for each part of its data and one for the directory free cannot fail |
| `FatRuns.OneChange` | src/fs/fat32.c:215-318 | one write or unlink updates that map, and takes no more than the clusters of its data and one for the directory; it fails exactly when the clusters at hand are too few, and what is then left is in order under the condition of FailedWrite |
| `FatRuns.RunChanges` | src/fs/fat32.c:215-318 | any run of writes and unlinks: every name in every directory then stands for what the changes, applied to a flat map from names to contents, leave; the invariant holds and every cluster is accounted for; a run whose clusters, summed up beforehand, are free at the start goes through; one that stops does so at a change without room in the state the changes before it left, with the volume in order under the condition of FailedWrite |
| `Descriptors.Kernel.constructor` | src/fs/vfs.c:913-924 | no files, no pipes |
| `Descriptors.Kernel.NewTask` | src/fs/vfs.c:913-924 | a task with an empty table of 128 slots |
| `Descriptors.Kernel.Release` | src/fs/vfs.c:954-962 | one reference less; the last one runs the close hook once, and only for this file, and frees the file, and a pipe with its last end |
| `Descriptors.Kernel.Get` | src/fs/vfs.c:925-929 | the file in the slot |
| `Descriptors.Kernel.Free` | src/fs/vfs.c:930-937 | the slot is empty |
| `Descriptors.Kernel.AllocFrom` | src/fs/vfs.c:992-1005 | the lowest empty slot from the start on, or none |
| `Descriptors.Kernel.Install` | src/fs/vfs.c:1015-1025 | a new file in the lowest free slot from the start on, or no trace when all are used |
| `Descriptors.Kernel.Open` | src/fs/vfs.c:1070-1083 | fails exactly without memory or a free slot, and then leaves no trace; else a new file with one reference and no hook run in the lowest free slot |
| `Descriptors.Kernel.Close` | src/fs/vfs.c:1371-1377 | fails exactly on an unused descriptor; else the slot is empty, its flags clear and the file has a reference less, the last one running its hook and closing its pipe end; no other hook runs |
| `Descriptors.Kernel.CloseSlot` | src/fs/vfs.c:1371-1377 | the same while other files are in transit |
| `Descriptors.Kernel.LowestFree` | src/fs/vfs.c:992-1005 | the lowest empty slot from the start on, or none |
| `Descriptors.Kernel.Share` | src/fs/vfs.c:1383-1389 | one slot and one reference more |
| `Descriptors.Kernel.Dup` | src/fs/vfs.c:1379-1391 | the lowest free slot, from 3 on for a standard descriptor, shares the file with one more reference; an empty standard descriptor gets a console file of its own; fails exactly when the descriptor is unusable or no slot is free |
| `Descriptors.Kernel.Dup2` | src/fs/vfs.c:1393-1408 | the descriptor stands for the other's file with one more reference, what it held has one less and has its hook run with the last, no other slot changes and no other hook runs; fails exactly as the tests in the source say, and then changes nothing |
| `Descriptors.Kernel.ConsoleAt` | src/fs/vfs.c:1399-1407 | a console file in the given slot; what the slot held has a reference less |
| `Descriptors.Kernel.Fork` | src/fs/vfs.c:964-969 | a copied table and flags, and each file has as many references more as slots of the table hold it |
| `Descriptors.Kernel.CloseAll` | src/fs/vfs.c:971-979 | every slot of the task is empty |
| `Descriptors.Kernel.SetFlags` | src/fs/vfs.c:946-952 | the flags of a used descriptor |
| `Descriptors.Kernel.CloseOnExec` | src/fs/vfs.c:981-990 | exactly the marked descriptors of this task are closed; the others keep their files and flags |
| `Descriptors.Kernel.CreatePipe` | src/ipc/pipe.c:134-159 | a pipe with one reader and one writer |
| `Descriptors.Kernel.PlaceEnds` | src/ipc/pipe.c:160-167 | both ends take the two lowest free slots, or fewer than two are free and neither takes one |
| `Descriptors.Kernel.DiscardPipe` | src/ipc/pipe.c:162-167 | a pipe that got no descriptors leaves no trace and runs no hook |
| `Descriptors.Kernel.MakePipe` | src/ipc/pipe.c:134-173 | read and write end, both new, in the two lowest free slots of a pipe that is neither in use nor was freed before; fails exactly without memory or two free slots, and then leaves no trace but perhaps cleared flags of an empty slot; no hook runs |
| `Descriptors.InstallKeeps` | src/fs/vfs.c:913-924 | filling a slot keeps every count equal to the number of slots |
| `Descriptors.DropKeeps` | src/fs/vfs.c:954-962 | dropping a reference keeps every count equal to the number of slots |
| `Descriptors.GoneKeepsPipes` | src/ipc/pipe.c:93-115 | a file that goes closes its end, and the pipe goes exactly with its last end; no counter underflows |
| `Descriptors.GoneKeepsLog` | src/fs/vfs.c:954-962 | the hook runs for the first and only time |
| `Descriptors.AllRetained` | src/fs/vfs.c:964-969 | after retaining, the copied table is counted |
| `Descriptors.NothingLeft` | src/fs/vfs.c:971-979 | when no slot is used, no file and no pipe is left, every file that ever had a descriptor had its hook run exactly once, and every pipe that did was freed exactly once |
| `DescriptorRuns.TablesDecide` | src/fs/vfs.c:954-962 | in every state a file is there exactly while a slot holds it, with as many references as slots, and its hook has run, once, exactly if none does |
| `DescriptorRuns.Step` | src/fs/vfs.c:913-1408 | any call does to descriptors and flags, and returns, what its specification on tables says |
| `DescriptorRuns.WholeRun` | src/fs/vfs.c:913-1408 | any script of calls is, state by state, a run of that specification; when every task has ended no file and no pipe is left, and every file and every pipe that ever had a descriptor was closed or freed exactly once |
| `PipeBuffer.Pipe.constructor` | src/ipc/pipe.c:134-143 | an empty pipe with an open end of each kind |
| `PipeBuffer.Pipe.Read` | src/ipc/pipe.c:15-46 | the oldest bytes in order; what was written is what was read and what the ring holds |
| `PipeBuffer.Pipe.Write` | src/ipc/pipe.c:48-79 | as many bytes as fit, behind what is there; broken exactly when full without readers |
| `PipeBuffer.Pipe.CloseRead` | src/ipc/pipe.c:93-103 | one read end less; the pipe goes exactly with the last end of both kinds, as in the descriptor tables |
| `PipeBuffer.Pipe.CloseWrite` | src/ipc/pipe.c:105-115 | one write end less; the pipe goes exactly with the last end of both kinds, as in the descriptor tables |
| `PipeBuffer.Drain` | src/ipc/pipe.c:15-46 | after the last writer goes, a reader gets everything written and not yet read, in order, and then the end of the stream |
| `HeapBlocks.AlignUpServes` | src/mem/heap.c:52-54 | the rounded size covers the request exactly up to 2^64 - 16; above, it wraps to zero |
| `HeapBlocks.NextPrevInverse` | src/mem/heap.c:64-89 | next and prev are mutual inverses |
| `HeapBlocks.CutKeeps` | src/mem/heap.c:208-218 | splitting keeps the blocks tiling the arena and properly linked |
| `HeapBlocks.MergeKeeps` | src/mem/heap.c:262-271 | coalescing keeps the blocks tiling the arena and properly linked |
| `HeapBlocks.TakePart` | src/mem/heap.c:208-219 | splitting for a request leaves no two free neighbours |
| `HeapBlocks.MergeNext` | src/mem/heap.c:262-266 | after coalescing with the next block only the previous one may be free too |
| `HeapBlocks.MergePrev` | src/mem/heap.c:267-271 | after coalescing with the previous block no two free neighbours are left |
| `HeapBlocks.PayloadsApart` | src/mem/heap.c:195-225 | payloads in use are 16-byte aligned, inside the arena and disjoint |
| `HeapBlocks.AllFreed` | src/mem/heap.c:242-273 | once nothing is in use the arena is one free block again |
| `HeapBlocks.UsedDecides` | src/mem/heap.c:242-273 | two lists over the same arena with the same payloads in use are the same list |
| `HeapBlocks.Heap.constructor` | src/mem/heap.c:157-162 | one free block over the arena |
| `HeapBlocks.Heap.Alloc` | src/mem/heap.c:195-225 | the first block in address order that fits; the payload is aligned and has the rounded request, or at most 64 bytes more; what the block had beyond the request and 64 bytes is a free block right behind it, otherwise it goes along, and no other block changes; zero exactly when the request is empty or nothing fits |
| `HeapBlocks.Heap.Taken` | src/mem/heap.c:208-219 | the same, for the block at hand |
| `HeapBlocks.Heap.Free` | src/mem/heap.c:242-273 | exactly this block is no longer in use; pointers to no block or to a free one change nothing |
| `HeapBlocks.Heap.Released` | src/mem/heap.c:259-271 | coalescing with both neighbours |
| `TcpReceive.SeqOnce` | src/net/tcp.c:370 | within one stream a 32-bit sequence number names one offset |
| `TcpReceive.Socket.constructor` | src/net/tcp.c:340-347 | an established connection with nothing received |
| `TcpReceive.Socket.Receive` | src/net/tcp.c:368-403 | any segment of the peer, in any order and number: in-order data is kept up to the room there is and acknowledged whole, other data changes nothing, nothing is lost if and only if accepted data fits, and FIN and RST move the state |
| `TcpReceive.Socket.Take` | src/net/tcp.c:368-383 | the data part of that |
| `TcpReceive.Overrun` | src/net/tcp.c:372-379 | 16384 bytes at once lose the last one, acknowledged all the same |
| `TcpReceive.GapPrefix` | src/net/tcp.c:372-379 | after a gap, what is delivered is a prefix of the stream exactly when what follows reads like what is missing |
| `TcpReceive.OverrunThenMore` | src/net/tcp.c:368-383 | a byte accepted after such an overrun: what is delivered is no prefix of the stream, unless that byte equals the lost one |
| `TcpReceive.Socket.Accept` | src/net/tcp.c:370-380 | in-order data is kept whole exactly when it fits; all of it is acknowledged either way |
| `TcpReceive.Socket.Store` | src/net/tcp.c:372-378 | bytes up to the room there is, in order |
| `TcpReceive.Socket.Available` | src/net/tcp.c:261-267 | the number of bytes waiting on a live socket |
| `TcpReceive.Socket.Recv` | src/net/tcp.c:222-259 | the oldest waiting bytes, across the wrap of the ring; what was received in all is unchanged; an empty ring is an error on a dead or non-blocking socket |
| `TcpReceive.DeliveredPrefix` | src/net/tcp.c:222-259 | what the reader has is a prefix of the peer's stream while nothing was dropped |
| `InternetChecksum.SumsSwap` | src/net/ip.c:14-30 | big-endian and little-endian sums differ by a byte swap modulo 65535 |
| `InternetChecksum.SumFits` | src/net/ip.c:14-51 | no sum over a datagram overflows 32 bits |
| `InternetChecksum.FoldSum` | src/net/ip.c:19 | folding carries gives the residue modulo 65535, never zero for a nonzero sum |
| `InternetChecksum.FoldsSwap` | src/net/ip.c:14-51 | the folded sums are byte swaps of each other, odd lengths included |
| `InternetChecksum.NetChecksum` | src/net/ip.c:14-21 | the complement of the folded little-endian sum |
| `InternetChecksum.AddBeBytes` | src/net/ip.c:23-30 | the big-endian sum, odd last byte padded |
| `InternetChecksum.TransportChecksum` | src/net/ip.c:32-51 | equals the little-endian checksum of pseudo-header and segment |
| `InternetChecksum.PseudoHeaderIs` | src/net/ip.c:35-46 | the pseudo-header is both addresses, a zero byte, the protocol and the length, in network order |
| `InternetChecksum.StoredVerifies` | src/net/ip.c:14-51 | storing the checksum in its zeroed field makes the folded sum 0xFFFF in either byte order |

## Left out

- Hardware effects: huge pages, TLB shootdown, CR3 loads and interrupts; each locked section is one step.
- sys_mprotect, sys_mmap (page by page it does what brk does), and page faults on present pages that are not copy-on-write.
- Per-zone page counters and watermarks; the global totals are modelled.
- Frames above the last page descriptor, which have no counts: the address-space model asks that all memory has descriptors.
- A region of memory that holds address 0, which is the allocator's failure value.
- CowMemory.MapWindowStep: windows are frames of other kernel allocations; mapping a user's own page with DONT_FREE is not modelled.
- Forking.ForkSpace: of the flags of upper-level entries it states WRITE and USER only, through the invariant; once the allocator's node pool runs short it states when a fork is whole one way only.
- Syscalls.Brk: states breaks inside the user half only.
- Syscalls.Munmap: states ranges inside the user half only.
- MemoryRuns.WholeRun: its windows open inside foreign allocations, not on their first frames, since unmapping one of those breaks the invariant; a fault on a present page that is not copy-on-write is passed over.
- AddressSpaces.Vmm.MapPage: asks for the USER bit only of a manager declared to map user pages only (`userOnly`); any other takes any flags.
- AddressSpaces.Vmm.MapFresh: once the allocator's node pool runs short it states when a frame leaks one way only, since a page request may then take a larger cell.
- AddressSpaces.Vmm.MapWindow: the same.
- Syscalls.GrowPages: the same, for when the range is whole.
- Processes.RunAffords: its condition is enough for a run without loss, not needed for it; each call's own condition is exact.
- Failing device writes, devices without a write hook and sector sizes above 4096 in the block cache; its tick counter does not wrap.
- FAT32 mount, mkdir, readdir, long names, and writes through sys_write; a third table copy, which the source never updates.
- FAT32 ignores cache and kmalloc failures; the volume model therefore asks that the device can be read.
- FatRuns.RunChanges: stops at the first write that finds too few clusters; its condition on the clusters of the whole run is enough for it to go through, not needed.
- FatPaths.ResolvePath: canonical 8.3 names only, and no path through a plain file, whose data the source would read as a directory.
- FatPaths.WritePath: absolute paths shorter than 255 characters that do not end in a slash.
- FatPaths.UnlinkPath: the same paths.
- LZ77 copying, dynamic block headers and the zlib wrapper around the Huffman decoder; bit-depth expansion and interlacing around the PNG filters.
- Waiting on pipes and sockets: a read or write is modelled from the point where it no longer waits.
- Path lookup in sys_open and the close hooks of sockets and devices; closing is counted for every file, and the pipe hooks are modelled.
- Heap buckets, heap_expand, krealloc and kmemalign; stale headers inside payloads are not part of the heap model.
- TCP connection set-up, sending, retransmission, and teardown beyond FIN and RST on an established connection.
- UDP and IP header handling around the checksums.
- JPEG and the other image formats, the slab allocator, scheduling, capabilities, drivers and user space.
