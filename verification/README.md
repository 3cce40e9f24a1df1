# Verified models of the qcow2 and VHD drivers, the Mini-OS kernel services and kexec

A Dafny model of six parts of this source tree, with proofs of what they keep over whole runs.
`dafny verify dfyconfig.toml` checks the project.

- **qcow2 image manager** (`Qcow2*.dfy`). `Qcow2Format` has entries, tables, trees and the guest view. `Qcow2Store` is
  the image file with refcount blocks, their one-block cache and the cluster allocator. `Qcow2Invariant` is the global
  invariant: metadata regions that do not overlap, well-formed trees, counts equal to the references a walk finds, and
  COPIED exactly where the count is 1. `Qcow2Steps`, `Qcow2Pass`, `Qcow2SnapshotSteps`, `Qcow2Lookup`, `Qcow2Writing`
  and `Qcow2Facts` prove what single steps do to an image as a value. `Qcow2Image` is the driver, `Qcow2Fresh` a
  new image, `Qcow2Runs` the refinement of plain arrays over any run, `Qcow2Isolation` what a snapshot keeps over any
  run, `Qcow2Check` the consistency check, `Qcow2SnapshotIds` the ids made up for snapshots, `Qcow2SnapshotTable`,
  `Qcow2SnapshotFile` and `Qcow2Header` the bytes of the snapshot table and the header, `Qcow2Reopen` opening an image
  from its file, `Qcow2Compressed` the space for compressed clusters.
- **Page allocator** (`MiniOsBitmap`, `Buddy*`, `MiniOsPages`). A bit per page in machine words, free lists linked
  through the free pages, and sets of aligned chunks that tile the free pages. Everything is in page numbers.
- **kexec** (`KexecP2m`). The in-place rewriting of the physical-to-machine map.
- **Event channels** (`EventChannels`, `EventCallback`). Every atomic instruction is a step. Any number of senders,
  unmasking callers and callbacks interleave; the callback itself is code that others may disturb before each
  instruction.
- **Free lists, grants, scheduler** (`IndexLists`, `MiniOsGrants`, `MiniOsSched`).
- **VHD dynamic disks** (`VhdDisk`).

`Arith` has division by repeated subtraction, which keeps cluster arithmetic linear for symbolic cluster sizes.

## What the model takes as given

- All I/O succeeds. The clock, the results of the page allocator, the steps of other domains and the order of
  interleaved steps are parameters, quantified over.
- qcow2 table words are logical integers: byte swaps are the identity. `block-qcow2.c` saves a raw word on line 907 and
  frees it unswapped on line 919, so exact counts hold only under this reading.
- Every cluster of the qcow2 file has its refcount block, the level-1 table has a fixed size and, at every
  operation of a run, the snapshots that exist leave room in the 16-bit counts. An allocation that would need a further
  refcount block fails in the model and ends the run; `exhausted` records that, and each contract bounds the clusters
  whose presence rules it out (`Room`, `Spent`).
- Lines 983 and 989 of `block-qcow2.c` read one table entry past the range; the model guards them, since the value
  never changes the result.
- Blocks given to `free_pages` are aligned, inside the managed range and fully allocated.
- `alloc_page` returns distinct pages.
- A VHD block has at least 8 sectors, the BAT starts at a sector and covers the sectors of the disk, and the footer is
  the last sector.

## Findings

Places where the code does not always do what it is for, each with an input and the exact condition.

- `alloc_block` accepts the sector right behind the disk (line 341 of `block-vpc.c` tests `>`), and its BAT index then
  lies past a BAT that covers the disk exactly. `VhdDisk.PastTheBat` is the input, `VhdDisk.AcceptedInBat` the exact
  condition; `AllocBlock` and `VpcWrite` ask for it only when that sector is reached. A guest does not reach it through
  `bdrv_read` and `bdrv_write`: `bdrv_check_request` (lines 571-582 of `block.c`) refuses such a request unless the
  device is growable.
- The page bitmap must have a bit for page max itself. The size computed on lines 217-218 of `mm.c` does not always
  provide it; `MiniOsPages.BitmapCovers` gives the exact condition, which the constructor requires;
  `MiniOsPages.BitmapShort` is the input of 128 MiB.
- A snapshot without an id gets a number that can be in use, and the creation is then refused:
  `Qcow2SnapshotIds.NewIdUnused` and `Qcow2SnapshotIds.NumbersRunOut`.
- `kexec_allocate` with a bound below the current one forgets moves that a later chase may need. `KexecP2m.ForgetMoves`
  gives the exact condition in terms of the moves that remain, `KexecP2m.ShrinkLoses` an input. No caller in this tree
  is seen to lower the bound.
- `do_exchange` of a frame whose page can still be allocated makes a later chase end on the wrong slot.
  `KexecP2m.RewriteExchange` gives the exact condition, `KexecP2m.ExchangeLoses` an input. A target slot
  that is already allocated meets its half of the condition.
- Exited threads are not freed at every switch: a thread that runs for the first time does not return into
  `schedule`. By the contract of `MiniOsSched.Scheduler.Schedule` they are freed exactly when the thread that the passes
  end with, `Chosen`, a function of the state and the passes before the call, has run before.
  `MiniOsSched.NotFreed` is an input.

## Model

| member | source | states |
|---|---|---|
| Qcow2Runs.RunOps | xen-4.1.2/tools/ioemu-qemu-xen/block-qcow2.c:1133-2105 | any run of reads, writes, snapshot creations, restorations and deletions leaves the image consistent, what it means (guest disk, ids, names and guest disk of every snapshot) and what its reads return are what the same operations do to plain arrays, and it fails only without room for the clusters that its operations can need together; what the image knows stays in its file |
| Qcow2Isolation.SnapshotIsolation | xen-4.1.2/tools/ioemu-qemu-xen/block-qcow2.c:1960-2105 | a snapshot that stays on the list keeps id, name and guest disk through any run, wherever deletions shift it to and whether or not ids repeat |
| Qcow2Isolation.CreateThenGoto | xen-4.1.2/tools/ioemu-qemu-xen/block-qcow2.c:1960-2070 | creating a snapshot, doing anything that keeps its id listed, and going back by its id, or by a name that only it has, restores the guest disk |
| Qcow2Runs.Step | xen-4.1.2/tools/ioemu-qemu-xen/block-qcow2.c:1133-2105 | one operation keeps the invariant, does to the meaning of the image what the operation means, and fails only without room for the clusters it can need |
| Qcow2Isolation.StepIsolates | xen-4.1.2/tools/ioemu-qemu-xen/block-qcow2.c:1960-2105 | no operation changes a snapshot that it leaves on the list, also when the list shifts |
| Qcow2Isolation.FollowById | xen-4.1.2/tools/ioemu-qemu-xen/block-qcow2.c:1932-1957 | while an id that no other snapshot has stays on the list, it names the same snapshot |
| Qcow2Isolation.RunKeeps | xen-4.1.2/tools/ioemu-qemu-xen/block-qcow2.c:1960-2105 | on an open image: after any run, what a reader of a surviving snapshot finds in the tables is what was there before |
| Qcow2Isolation.CreateRunGoto | xen-4.1.2/tools/ioemu-qemu-xen/block-qcow2.c:1960-2070 | on an open image: create, any run that does not delete the snapshot, go back by id or by name: every guest sector is as it was |
| Qcow2Isolation.RunFromFresh | xen-4.1.2/tools/ioemu-qemu-xen/block-qcow2.c:1505-1534 | a new image shows its backing file; any run on it means what it means on plain arrays, and succeeds whenever the file has clusters for the layout and the needs of the run |
| Qcow2Reopen.Sessions | xen-4.1.2/tools/ioemu-qemu-xen/block-qcow2.c:186-300 | a new image used in any number of sessions, closed and opened again from the bytes of its file after each, means and returns what all operations of all sessions do to plain arrays |
| Qcow2Reopen.Reopen | xen-4.1.2/tools/ioemu-qemu-xen/block-qcow2.c:186-300 | closing an image and opening its file again gives the same image: guest disk, snapshots, counts and tables |
| Qcow2Reopen.Open | xen-4.1.2/tools/ioemu-qemu-xen/block-qcow2.c:203-283 | the places of all tables come from the header, the level-1 table and the snapshot list from where the header says |
| Qcow2Reopen.ReadSnapshots | xen-4.1.2/tools/ioemu-qemu-xen/block-qcow2.c:1791-1844 | the snapshot list of the image comes back from the clusters of its table, whatever follows them in the file |
| Qcow2Fresh.FreshFiled | xen-4.1.2/tools/ioemu-qemu-xen/block-qcow2.c:1478-1534 | the header of a new image is accepted and names its tables |
| Qcow2Fresh.FreshInv | xen-4.1.2/tools/ioemu-qemu-xen/block-qcow2.c:1505-1534 | the layout of a new image, with any number of level-1 clusters and refcount blocks and any cluster size, meets the whole invariant, so runs have a state to start from |
| Qcow2Fresh.FreshRoom | xen-4.1.2/tools/ioemu-qemu-xen/block-qcow2.c:1505-1534 | all clusters past the layout of a new image can be allocated |
| Qcow2Image.Image.QcowRead | xen-4.1.2/tools/ioemu-qemu-xen/block-qcow2.c:1090-1131 | returns exactly the guest sectors asked for: from the cluster that maps them, else from the backing file, else zero; the loop ends |
| Qcow2Image.Image.QcowWrite | xen-4.1.2/tools/ioemu-qemu-xen/block-qcow2.c:1133-1171 | exactly the sectors of the range change, every snapshot keeps its guest disk, invariant and caches hold; fails only without room for two clusters per guest cluster reached; on clusters that only the active tree refers to it never fails and changes no table and no count |
| Qcow2Writing.NeedIs | xen-4.1.2/tools/ioemu-qemu-xen/block-qcow2.c:1133-1171 | for k whole clusters the room asked for is 2k clusters |
| Qcow2Image.Image.WriteChunk | xen-4.1.2/tools/ioemu-qemu-xen/block-qcow2.c:1143-1167 | one round of a write makes progress and changes the sectors it reports and no others, in place or through new clusters |
| Qcow2Image.Image.WriteOwn | xen-4.1.2/tools/ioemu-qemu-xen/block-qcow2.c:1158-1160 | writing in place, which COPIED permits, touches no cluster that a snapshot can reach |
| Qcow2Image.Image.GetClusterOffset | xen-4.1.2/tools/ioemu-qemu-xen/block-qcow2.c:649-722 | the host cluster of a sector and the longest run of sectors, up to as many as asked for and the end of the table, that are all mapped to consecutive clusters, or all unmapped |
| Qcow2Lookup.ScanEnds | xen-4.1.2/tools/ioemu-qemu-xen/block-qcow2.c:664-717 | a run shorter than asked for ends with a cluster, and the next cluster is in another table or lies elsewhere |
| Qcow2Image.Image.ReadBacking | xen-4.1.2/tools/ioemu-qemu-xen/block-qcow2.c:1076-1088 | the sectors of the backing file, and zeros past its end |
| Qcow2Image.Image.GetClusterTable | xen-4.1.2/tools/ioemu-qemu-xen/block-qcow2.c:763-808 | yields a cached level-2 table that only the active tree uses, copying a shared one; guest disk and snapshots do not change |
| Qcow2Image.Image.L2Allocate | xen-4.1.2/tools/ioemu-qemu-xen/block-qcow2.c:551-600 | giving up a shared table and taking a private copy of it keeps counts exact, flags right and the guest disk |
| Qcow2Image.Image.AllocClusterOffset | xen-4.1.2/tools/ioemu-qemu-xen/block-qcow2.c:940-1012 | either the clusters hold the guest clusters and nothing else refers to them, or they are new, counted once and referred to by nothing; a guest cluster marked COPIED on both levels is always written in place |
| Qcow2Image.Image.CopySectors | xen-4.1.2/tools/ioemu-qemu-xen/block-qcow2.c:368-391 | the sectors copied into a new cluster are those the guest sees there before the write |
| Qcow2Image.Image.AllocClusterLinkL2 | xen-4.1.2/tools/ioemu-qemu-xen/block-qcow2.c:872-925 | after linking the new clusters the guest sees the written sectors, and head and tail sectors survive; replaced clusters are given up |
| Qcow2Image.Image.LinkTable | xen-4.1.2/tools/ioemu-qemu-xen/block-qcow2.c:901-921 | entering the run in the table and freeing the entries it replaced keeps exact counts and every snapshot |
| Qcow2Image.Image.L2CacheReset | xen-4.1.2/tools/ioemu-qemu-xen/block-qcow2.c:393-400 | the emptied cache agrees with the file |
| Qcow2Image.Image.L2CacheNewEntry | xen-4.1.2/tools/ioemu-qemu-xen/block-qcow2.c:402-418 | the first slot among those with the least hits |
| Qcow2Image.Image.SeekL2Table | xen-4.1.2/tools/ioemu-qemu-xen/block-qcow2.c:488-504 | finds the slot of a table if there is one; hit counts stay below overflow by halving; the cache keeps agreeing with the file |
| Qcow2Image.Image.L2Load | xen-4.1.2/tools/ioemu-qemu-xen/block-qcow2.c:516-539 | the slot holds the table of the file; the cache still agrees with the file, without two slots for one table; a table that was not cached replaces a least used one and starts with one hit |
| Qcow2Image.Image.UpdateSnapshotRefcount | xen-4.1.2/tools/ioemu-qemu-xen/block-qcow2.c:1666-1775 | every cluster met under a level-1 table gets the addend once per path, and every flag of that tree becomes right, in memory and in the file |
| Qcow2Image.Image.PassTree | xen-4.1.2/tools/ioemu-qemu-xen/block-qcow2.c:1699-1756 | the pass over the level-1 entries, with each table written back before the next is counted, adds each path exactly once |
| Qcow2Image.Image.WriteSnapshots | xen-4.1.2/tools/ioemu-qemu-xen/block-qcow2.c:1847-1914 | moving the snapshot table to new clusters keeps exact counts, the guest disk and every snapshot; afterwards header and table in the file hold exactly the snapshot list |
| Qcow2Header.BuildTable | xen-4.1.2/tools/ioemu-qemu-xen/block-qcow2.c:1869-1895 | the clusters of the table, put together, hold the record of every snapshot |
| Qcow2Image.Image.EnterTable | xen-4.1.2/tools/ioemu-qemu-xen/block-qcow2.c:1897-1906 | number and place of the snapshots are entered in the header; nothing else in the file changes |
| Qcow2Header.EnteredFields | xen-4.1.2/tools/ioemu-qemu-xen/block-qcow2.c:1897-1906 | both fields read back as written, and all other fields of the header are as before |
| Qcow2SnapshotSteps.HeaderStep | xen-4.1.2/tools/ioemu-qemu-xen/block-qcow2.c:1897-1906 | writing the header disturbs no count, no snapshot and no guest sector |
| Qcow2SnapshotSteps.SnapTableStep | xen-4.1.2/tools/ioemu-qemu-xen/block-qcow2.c:1868-1910 | taking clusters, writing the table, entering it and giving the old one up keeps the invariant |
| Qcow2Image.Image.FindSnapshotById | xen-4.1.2/tools/ioemu-qemu-xen/block-qcow2.c:1932-1942 | the first snapshot with the id; -1 exactly when none has it |
| Qcow2Image.Image.FindSnapshotByIdOrName | xen-4.1.2/tools/ioemu-qemu-xen/block-qcow2.c:1944-1957 | the first snapshot with that id; if no id matches, the first with that name; -1 exactly when neither does |
| Qcow2Facts.KeyIs | xen-4.1.2/tools/ioemu-qemu-xen/block-qcow2.c:1944-1957 | what a key given to goto and delete stands for, in terms of the list alone |
| Qcow2Image.Image.SnapshotCreate | xen-4.1.2/tools/ioemu-qemu-xen/block-qcow2.c:1960-2027 | an empty id gets a number; a used id is refused and changes nothing; else one snapshot is added whose guest disk is the current one, and all others are as before; fails only without room for the new tables |
| Qcow2Image.Image.SnapshotGoto | xen-4.1.2/tools/ioemu-qemu-xen/block-qcow2.c:2030-2070 | the guest disk becomes that of the snapshot; no snapshot changes; an unknown key changes nothing; needs no free cluster |
| Qcow2Image.Image.SnapshotDelete | xen-4.1.2/tools/ioemu-qemu-xen/block-qcow2.c:2072-2105 | exactly that snapshot goes; guest disk and all others stay; counts are exact and the COPIED flags of the active tree are right again; fails only without room for the new snapshot table |
| Qcow2SnapshotIds.FindNewSnapshotId | xen-4.1.2/tools/ioemu-qemu-xen/block-qcow2.c:1916-1930 | one more than the largest id read as a 32-bit number, printed |
| Qcow2SnapshotIds.MaxIdIs | xen-4.1.2/tools/ioemu-qemu-xen/block-qcow2.c:1923-1928 | no id has a larger number, and some id has it unless it is 0 |
| Qcow2SnapshotIds.IdNumbers | xen-4.1.2/tools/ioemu-qemu-xen/block-qcow2.c:1925 | white space, signs, and what follows the digits, at concrete ids |
| Qcow2SnapshotIds.IdWraps | xen-4.1.2/tools/ioemu-qemu-xen/block-qcow2.c:1925 | a number of 64 bits is cut to 32 bits with a sign; a larger one reads as -1; a minus negates |
| Qcow2SnapshotIds.SpacesSkipped | xen-4.1.2/tools/ioemu-qemu-xen/block-qcow2.c:1925 | white space in front of a number does not matter |
| Qcow2SnapshotIds.DecimalDigit | xen-4.1.2/tools/ioemu-qemu-xen/block-qcow2.c:1929 | each digit printed is the one of its power of ten |
| Qcow2SnapshotIds.FirstIds | xen-4.1.2/tools/ioemu-qemu-xen/block-qcow2.c:1916-1930 | the ids made up for the first snapshots |
| Qcow2SnapshotIds.NewIdUnused | xen-4.1.2/tools/ioemu-qemu-xen/block-qcow2.c:1916-1930 | the number made up is in use if and only if some id reads as the largest int and the smallest int is itself an id |
| Qcow2SnapshotIds.NumbersRunOut | xen-4.1.2/tools/ioemu-qemu-xen/block-qcow2.c:1929 | ids for which the number made up is in use |
| Qcow2SnapshotIds.PrintedReads | xen-4.1.2/tools/ioemu-qemu-xen/block-qcow2.c:1925-1929 | a number that was printed is read back as that number |
| Qcow2Store.Store.GetRefcount | xen-4.1.2/tools/ioemu-qemu-xen/block-qcow2.c:2177-2197 | the count in the file, also when it comes from the one-block cache; 0 for a cluster without a refcount block |
| Qcow2Store.Store.LoadRefcountBlock | xen-4.1.2/tools/ioemu-qemu-xen/block-qcow2.c:2164-2175 | the cached block is the block of the file |
| Qcow2Store.Store.UpdateClusterRefcount | xen-4.1.2/tools/ioemu-qemu-xen/block-qcow2.c:2341-2402 | changes the count of one cluster and no other, refusing a result outside 0..0xffff; the search for free clusters moves back to a cluster that became free; cache and file keep agreeing |
| Qcow2Store.Store.UpdateRange | xen-4.1.2/tools/ioemu-qemu-xen/block-qcow2.c:2404-2423 | adds to the counts of a run of clusters and to no others; the search for free clusters starts no later than at any of them that is free now |
| Qcow2Store.Store.AllocClustersNoref | xen-4.1.2/tools/ioemu-qemu-xen/block-qcow2.c:2200-2218 | a run of clusters that are all counted 0; fails only if every run from the search start on has a used cluster |
| Qcow2Store.Store.AllocClusters | xen-4.1.2/tools/ioemu-qemu-xen/block-qcow2.c:2220-2227 | a run of clusters that were all counted 0, each now counted once, nothing else changed; fails only without room, and uses up no more room than the search passed and took |
| Qcow2Store.UsesRun | xen-4.1.2/tools/ioemu-qemu-xen/block-qcow2.c:2200-2218 | a first-fit search with a moving start spends at most the run it takes from the room for later requests |
| Qcow2Store.NoRoom | xen-4.1.2/tools/ioemu-qemu-xen/block-qcow2.c:2200-2218 | when every run from the search start on has a used cluster there was no room |
| Qcow2Store.Store.UpdateTableRefcounts | xen-4.1.2/tools/ioemu-qemu-xen/block-qcow2.c:1707-1736 | every entry of a table is counted and leaves with the flag its new count calls for |
| Qcow2Lookup.CountContiguousClusters | xen-4.1.2/tools/ioemu-qemu-xen/block-qcow2.c:607-621 | the longest run of entries that continue the first one |
| Qcow2Lookup.CountContiguousFreeClusters | xen-4.1.2/tools/ioemu-qemu-xen/block-qcow2.c:623-631 | the longest run of unused entries |
| Qcow2Lookup.CountAllocatable | xen-4.1.2/tools/ioemu-qemu-xen/block-qcow2.c:979-995 | the longest run of entries that are unused or continue the first one; none of them carries COPIED |
| Qcow2Lookup.CacheAfterCow | xen-4.1.2/tools/ioemu-qemu-xen/block-qcow2.c:594-597 | after a copy-on-write of a table the cache agrees with the file and no slot names a freed table |
| Qcow2Writing.BuildLink | xen-4.1.2/tools/ioemu-qemu-xen/block-qcow2.c:906-912 | the new entries and, with multiplicity, the used entries they replace |
| Qcow2Writing.CacheAfterLink | xen-4.1.2/tools/ioemu-qemu-xen/block-qcow2.c:903-916 | the cached copy of a rewritten table equals the file, and the other slots still do |
| Qcow2Steps.DataStep | xen-4.1.2/tools/ioemu-qemu-xen/block-qcow2.c:1158-1160 | writing data where no snapshot looks keeps exact counts, flags and every snapshot |
| Qcow2Steps.AllocStep | xen-4.1.2/tools/ioemu-qemu-xen/block-qcow2.c:2220-2227 | clusters counted 0 are referred to by nothing, so taking them cannot disturb anything |
| Qcow2Steps.FreeStep | xen-4.1.2/tools/ioemu-qemu-xen/block-qcow2.c:731-750 | giving up pending references brings the counts back to exactly the references found by a walk |
| Qcow2Steps.OnlyActive | xen-4.1.2/tools/ioemu-qemu-xen/block-qcow2.c:961-970 | a cluster of the active tree counted once is reachable from no snapshot |
| Qcow2Steps.LinkStep | xen-4.1.2/tools/ioemu-qemu-xen/block-qcow2.c:906-916 | entering a written run keeps the invariant with the replaced entries pending |
| Qcow2Steps.SwapStep | xen-4.1.2/tools/ioemu-qemu-xen/block-qcow2.c:562-592 | pointing a level-1 entry at its own copy keeps the invariant with the shared table pending |
| Qcow2Steps.CowStep | xen-4.1.2/tools/ioemu-qemu-xen/block-qcow2.c:784-797 | the whole copy-on-write of a level-2 table keeps the invariant, the guest disk and every snapshot |
| Qcow2Writing.LinkGuest | xen-4.1.2/tools/ioemu-qemu-xen/block-qcow2.c:906-916 | linking a run changes the guest view of exactly its clusters |
| Qcow2SnapshotSteps.CountedOnce | xen-4.1.2/tools/ioemu-qemu-xen/block-qcow2.c:1666-1775 | counting the active tree once more leaves one pending reference per path and clears its flags |
| Qcow2SnapshotSteps.AddStep | xen-4.1.2/tools/ioemu-qemu-xen/block-qcow2.c:2009-2015 | listing the copied level-1 table as a snapshot turns the pending references into real ones |
| Qcow2SnapshotSteps.CreateStep | xen-4.1.2/tools/ioemu-qemu-xen/block-qcow2.c:1990-2015 | from the counted tree to the listed snapshot: invariant, guest disk of the new snapshot and of the others |
| Qcow2SnapshotSteps.GotoStep | xen-4.1.2/tools/ioemu-qemu-xen/block-qcow2.c:2042-2062 | giving up the active tree, copying the table of a snapshot over it and counting that tree keeps the invariant and every snapshot |
| Qcow2SnapshotSteps.DeleteStep | xen-4.1.2/tools/ioemu-qemu-xen/block-qcow2.c:2083-2095 | giving up the tree of a snapshot, refreshing the active flags and freeing its table keeps the invariant |
| Qcow2SnapshotSteps.FlagsRefreshed | xen-4.1.2/tools/ioemu-qemu-xen/block-qcow2.c:2086-2089 | a pass with addend 0 makes exactly the COPIED flags of the active tree right |
| Qcow2SnapshotSteps.CountsBound | xen-4.1.2/tools/ioemu-qemu-xen/block-qcow2.c:2391-2392 | no count exceeds the number of snapshots plus one |
| Qcow2Check.CheckRefcounts | xen-4.1.2/tools/ioemu-qemu-xen/block-qcow2.c:2537-2588 | reports no error if and only if all references lie in the file, every count equals the references of a walk and the active flags are right |
| Qcow2Check.CheckL1 | xen-4.1.2/tools/ioemu-qemu-xen/block-qcow2.c:2453-2535 | tallies a level-1 table and everything under it once per path; no error if and only if its references and flags are in order |
| Qcow2Check.IncRefcounts | xen-4.1.2/tools/ioemu-qemu-xen/block-qcow2.c:2426-2451 | one more reference for each cluster of a range; no error if and only if the range lies in the file |
| Qcow2Check.RunAndCheck | xen-4.1.2/tools/ioemu-qemu-xen/block-qcow2.c:2537-2588 | after any run of operations, of any length, the image means what the run means, its file is consistent and the check reports nothing |
| Qcow2Check.ConsistentMeans | xen-4.1.2/tools/ioemu-qemu-xen/block-qcow2.c:2537-2588 | an image that passes has exact counts and right COPIED flags |
| Qcow2SnapshotTable.BeRoundTrip | xen-4.1.2/tools/ioemu-qemu-xen/block-qcow2.c:1874-1884 | reading back a big-endian field of any width gives the number written |
| Qcow2SnapshotTable.BigEndian | xen-4.1.2/tools/ioemu-qemu-xen/block-qcow2.c:1874-1884 | the most significant byte of a field comes first |
| Qcow2SnapshotTable.BytesInOrder | xen-4.1.2/tools/ioemu-qemu-xen/block-qcow2.c:1874-1884 | the bytes of one number, in the order they are in the file |
| Qcow2SnapshotTable.HeaderLayout | xen-4.1.2/tools/ioemu-qemu-xen/block-qcow2.c:80-97 | the place, width and contents of every field of a record |
| Qcow2Fresh.FreshLayout | xen-4.1.2/tools/ioemu-qemu-xen/block-qcow2.c:64-78 | the place, width and contents of the fields of the image header, with its magic bytes |
| Qcow2SnapshotTable.ComputeTableSize | xen-4.1.2/tools/ioemu-qemu-xen/block-qcow2.c:1857-1866 | the size of the table with every record aligned to 8 bytes |
| Qcow2SnapshotFile.EndShift | xen-4.1.2/tools/ioemu-qemu-xen/block-qcow2.c:420-424 | writer and reader agree on every record position wherever the aligned table starts |
| Qcow2SnapshotFile.HeaderParses | xen-4.1.2/tools/ioemu-qemu-xen/block-qcow2.c:1813-1824 | the nine header fields come back as written |
| Qcow2SnapshotFile.WriteTable | xen-4.1.2/tools/ioemu-qemu-xen/block-qcow2.c:1869-1895 | all records are in place, and no byte outside the size of the first pass changes |
| Qcow2SnapshotFile.ReadRecord | xen-4.1.2/tools/ioemu-qemu-xen/block-qcow2.c:1808-1838 | recovers the snapshot of a record; extra data is skipped, a short file is a failure |
| Qcow2SnapshotFile.ReadTable | xen-4.1.2/tools/ioemu-qemu-xen/block-qcow2.c:1791-1844 | recovers exactly the snapshots written, and the size the writer computed |
| Qcow2SnapshotFile.RoundTrip | xen-4.1.2/tools/ioemu-qemu-xen/block-qcow2.c:1847-1914 | writing any storable list and reading it back gives the same list |
| Qcow2Compressed.ByteAllocator.AllocBytes | xen-4.1.2/tools/ioemu-qemu-xen/block-qcow2.c:2231-2267 | bytes that fit go right behind the last ones; counts go up by one in exactly the clusters the returned range overlaps, except that a count of 0xffff stays unnoticed; the range is apart from all ranges handed out and not freed |
| Qcow2Compressed.AllocateAll | xen-4.1.2/tools/ioemu-qemu-xen/block-qcow2.c:2220-2267 | whatever bytes and whole clusters are asked for, in any order, no two of the ranges handed out overlap |
| Qcow2Compressed.HeldBeside | xen-4.1.2/tools/ioemu-qemu-xen/block-qcow2.c:2220-2227 | clusters taken while another one is being filled are apart from all ranges held |
| Qcow2Compressed.HeldAfter | xen-4.1.2/tools/ioemu-qemu-xen/block-qcow2.c:2240-2265 | a range from the free part, or from clusters not counted before, is apart from all ranges still held |
| Qcow2Compressed.SpanFits | xen-4.1.2/tools/ioemu-qemu-xen/block-qcow2.c:236-238 | the sector span of a range of at most one cluster fits its field |
| Qcow2Compressed.PackDecodes | xen-4.1.2/tools/ioemu-qemu-xen/block-qcow2.c:843-848 | decoding a descriptor gives back offset and sector span, for every cluster size the format allows |
| Qcow2Compressed.PackLayout | xen-4.1.2/tools/ioemu-qemu-xen/block-qcow2.c:236-238 | in which bits of a descriptor the offset, the sector span and the flag are |
| Qcow2Compressed.SameClusters | xen-4.1.2/tools/ioemu-qemu-xen/block-qcow2.c:738-744 | the whole sectors that freeing works with overlap the same clusters as the bytes allocated |
| Qcow2Compressed.FreeAnyClusters | xen-4.1.2/tools/ioemu-qemu-xen/block-qcow2.c:731-750 | freeing a descriptor restores every count to what it was before the range was taken |
| MiniOsBitmap.MaskBits | xen-4.1.2/extras/mini-os/mm.c:63-70 | the masks (1<<n)-1 and -(1<<n) have the bits below n and from n on |
| MiniOsBitmap.Bitmap.MapAlloc | xen-4.1.2/extras/mini-os/mm.c:72-91 | exactly the bits of the page range are set, for all offsets and lengths |
| MiniOsBitmap.Bitmap.MapFree | xen-4.1.2/extras/mini-os/mm.c:94-113 | exactly the bits of the page range are cleared, for all offsets and lengths |
| BuddyChunks.Coalesced | xen-4.1.2/extras/mini-os/mm.c:321-351 | every naturally aligned free block lies inside one free chunk |
| BuddyChunks.Maximal | xen-4.1.2/extras/mini-os/mm.c:321-361 | a block is a free chunk if and only if it is free and its parent is not |
| BuddyChunks.Canonical | xen-4.1.2/extras/mini-os/mm.c:278-361 | the set of free pages alone determines the set of free chunks |
| BuddyChunks.BuddyProbe | xen-4.1.2/extras/mini-os/mm.c:324-344 | the page whose level free_pages reads is the head of a free chunk, and the test finds the buddy exactly when it is one |
| BuddyLists.UnlinkKeeps | xen-4.1.2/extras/mini-os/mm.c:346-348 | the two stores unlink a chunk from any position of its list and leave all lists well linked |
| BuddyLists.PushKeeps | xen-4.1.2/extras/mini-os/mm.c:353-360 | the stores put a chunk in front of its list and leave all lists well linked |
| BuddyState.TakeStep | xen-4.1.2/extras/mini-os/mm.c:346-348 | unlinking a chunk leaves lists, levels and tiling in agreement for the remaining free pages |
| BuddyState.GiveStep | xen-4.1.2/extras/mini-os/mm.c:353-360 | linking in a block whose buddy is no chunk keeps lists, levels and tiling in agreement |
| MiniOsPages.BitmapCovers | xen-4.1.2/extras/mini-os/mm.c:216-218 | the bitmap has a bit for page max itself if and only if its byte size is not a whole number of pages |
| MiniOsPages.BitmapShort | xen-4.1.2/extras/mini-os/mm.c:216-218 | with 128 MiB of memory the bitmap has no bit for page max |
| MiniOsPages.PageAllocator.constructor | xen-4.1.2/extras/mini-os/mm.c:200-254 | exactly the pages behind the bitmap are free, tiled without buddies, whatever memory held |
| MiniOsPages.PageAllocator.BuildLists | xen-4.1.2/extras/mini-os/mm.c:232-253 | cutting the range greedily gives aligned chunks of which no two are buddies |
| MiniOsPages.PageAllocator.FindOrder | xen-4.1.2/extras/mini-os/mm.c:265-271 | the smallest order with a free chunk that is large enough |
| MiniOsPages.PageAllocator.AllocPages | xen-4.1.2/extras/mini-os/mm.c:258-306 | succeeds if and only if an aligned run of 2^order free pages exists, and takes exactly the 2^order pages from the one returned on |
| MiniOsPages.PageAllocator.SplitOff | xen-4.1.2/extras/mini-os/mm.c:279-295 | splitting keeps the lower half and puts the upper half on its list |
| MiniOsPages.PageAllocator.CanMerge | xen-4.1.2/extras/mini-os/mm.c:324-344 | the bit and level test holds if and only if the buddy is a free chunk |
| MiniOsPages.PageAllocator.FreePages | xen-4.1.2/extras/mini-os/mm.c:308-362 | exactly the 2^order pages from the given one on become free, merging keeps the invariant, and the order stays below FREELIST_SIZE |
| MiniOsPages.PageAllocator.AllocThenFree | xen-4.1.2/extras/mini-os/mm.c:258-362 | allocating a block and freeing it brings back the identical chunk set |
| MiniOsPages.PageAllocator.WritePage | xen-4.1.2/extras/mini-os/mm.c:124-128 | the owner of an allocated page may write anything into it, also where free pages have their headers |
| MiniOsPages.Run | xen-4.1.2/extras/mini-os/mm.c:258-362 | in any run of allocations, frees and page writes, every request is served as asked, no page is handed out twice and none is lost |
| KexecP2m.EndStep | xen-4.1.2/stubdom/grub/kexec.c:96-106 | how one more recorded move changes where the chase ends |
| KexecP2m.MoveStep | xen-4.1.2/stubdom/grub/kexec.c:85-113 | after an exchange every page that can still be allocated is found by the chase |
| KexecP2m.Kexec.Chase | xen-4.1.2/stubdom/grub/kexec.c:96-103 | the chase ends, on the slot that really holds the frame of the new page |
| KexecP2m.Kexec.AllocateOne | xen-4.1.2/stubdom/grub/kexec.c:85-113 | the slot holds the new page, earlier slots are untouched, the map stays a permutation |
| KexecP2m.Kexec.KexecAllocate | xen-4.1.2/stubdom/grub/kexec.c:77-118 | with a higher bound all slots up to it hold their new pages and those below the old bound are untouched; with any bound the map stays usable if and only if the caller could see so before |
| KexecP2m.Kexec.Shrink | xen-4.1.2/stubdom/grub/kexec.c:79-84 | a bound below the current one keeps later chases right if and only if the moves that remain lead every page that can still be allocated past the forgotten slots |
| KexecP2m.ForgetMoves | xen-4.1.2/stubdom/grub/kexec.c:82-115 | forgetting moves keeps the map usable if and only if the moves that remain lead every allocatable page past the forgotten slots |
| KexecP2m.ShrinkLoses | xen-4.1.2/stubdom/grub/kexec.c:82-115 | a state in which a lower bound makes the chase miss a page |
| KexecP2m.Kexec.DoExchange | xen-4.1.2/stubdom/grub/kexec.c:58-75 | the source frame is found and swapped with the target slot, anywhere in the map; all other slots stay; later chases still end right if and only if neither frame is that of a page that can still be allocated |
| KexecP2m.RewriteExchange | xen-4.1.2/stubdom/grub/kexec.c:58-75 | exchanging two slots keeps the map usable if and only if neither holds the frame of an allocatable page |
| KexecP2m.ExchangeLoses | xen-4.1.2/stubdom/grub/kexec.c:58-75 | an exchange after which the chase misses a page |
| KexecP2m.Run | xen-4.1.2/stubdom/grub/kexec.c:205-302 | any sequence of allocations with rising and falling bounds and of exchanges, each possible in its turn, does to the map what the calls mean, and the list of updates then turns M2P into the inverse of P2M |
| KexecP2m.BuildUpdates | xen-4.1.2/stubdom/grub/kexec.c:291-302 | the second pass fills exactly the entries the first one counted: one per page whose frame changed |
| KexecP2m.UpdatesInvert | xen-4.1.2/stubdom/grub/kexec.c:291-302 | applying the filtered list to the inverse of the old map gives the inverse of the new one |
| KexecP2m.Kexec.M2pUpdates | xen-4.1.2/stubdom/grub/kexec.c:291-302 | in every reachable state the list turns M2P into the inverse of the current P2M |
| EventChannels.NoneLostKept | xen-4.1.2/extras/mini-os/hypervisor.c:39-122 | every atomic step keeps: a pending unmasked port is in the selector or in the hands of some sender, unmasking caller or callback |
| EventChannels.RequestedKept | xen-4.1.2/extras/mini-os/hypervisor.c:39-122 | every atomic step keeps: a selector that is not empty has its upcall requested, or an agent about to request or take it |
| EventChannels.AccountedKept | xen-4.1.2/extras/mini-os/events.c:72-92 | every step keeps, for each port: raisings plus handler runs that found their bit clear equal handler runs plus bits dropped by the guest plus one if still pending, so no raising disappears |
| EventChannels.NothingWaits | xen-4.1.2/extras/mini-os/hypervisor.c:39-72 | with nobody mid-operation and no upcall requested, every pending port is masked |
| EventChannels.NoLostEvents | xen-4.1.2/extras/mini-os/hypervisor.c:39-122 | all of this, with exact accounting, in every state reachable under every interleaving |
| EventCallback.Guest.DoEvent | xen-4.1.2/extras/mini-os/events.c:72-92 | clears the pending bit and runs the handler of a known port, without need only if the bit was clear already |
| EventCallback.Guest.ServeWord | xen-4.1.2/extras/mini-os/hypervisor.c:61-68 | ends despite any finite interference; undisturbed, every due port of the word is handled exactly once |
| EventCallback.Guest.DoHypervisorCallback | xen-4.1.2/extras/mini-os/hypervisor.c:39-72 | is a run of the step machine; undisturbed, it handles every pending unmasked port of the selected words exactly once and no other |
| EventCallback.Guest.ForceEvtchnCallback | xen-4.1.2/extras/mini-os/hypervisor.c:74-89 | ends with no upcall requested; if everybody else is idle then, only masked ports are pending |
| EventCallback.Guest.UnmaskEvtchn | xen-4.1.2/extras/mini-os/hypervisor.c:97-116 | whatever others do, it begins with clearing the mask bit and calls no callback while upcalls are masked; undisturbed, it does exactly what is said of unmasking |
| EventCallback.UnmaskedResends | xen-4.1.2/extras/mini-os/hypervisor.c:97-116 | an event that became pending under the mask is handled exactly once, or its word is selected and nothing is handled; with upcalls masked nothing is handled at all |
| EventCallback.Guest.Resend | xen-4.1.2/extras/mini-os/hypervisor.c:112-114 | requests the upcall, and takes it at once exactly when upcalls are not masked |
| IndexLists.PushChain | xen-4.1.2/extras/mini-os/gnttab.c:49-50 | putting an id in front keeps the list acyclic and adds that id |
| IndexLists.PopChain | xen-4.1.2/extras/mini-os/gnttab.c:62-64 | taking the head keeps the rest a list, although nothing ends it |
| IndexLists.IndexList.Grants | xen-4.1.2/extras/mini-os/gnttab.c:186-187 | after initialisation all references from the reserved ones on are free, counted by the semaphore |
| IndexLists.IndexList.Transmit | xen-4.1.2/extras/mini-os/netfront.c:330-335 | after initialisation all transmit ids are free, counted by the semaphore |
| IndexLists.IndexList.Pop | xen-4.1.2/extras/mini-os/gnttab.c:61-70 | a caller past the semaphore gets the first id of the list, which is in range and held by nobody, so the range check never fires |
| IndexLists.IndexList.Push | xen-4.1.2/extras/mini-os/netfront.c:71-75 | an id in use becomes the first free one, all others keep their state |
| IndexLists.Interleave | xen-4.1.2/extras/mini-os/gnttab.c:40-71 | any interleaving of callers does what their semaphore and list steps mean one after the other, and each id is free or in use and none twice |
| MiniOsGrants.GrantTable.GrantAccess | xen-4.1.2/extras/mini-os/gnttab.c:73-86 | writes the entry of a reference nobody held; no other entry changes |
| MiniOsGrants.GrantTable.EndAccess | xen-4.1.2/extras/mini-os/gnttab.c:102-120 | with the other domain moving before each exchange: the grant is taken away exactly at the first exchange before which the flags stood still and at rest, and stays if they were seen in use before that; all else is untouched |
| MiniOsGrants.EndsOnce | xen-4.1.2/extras/mini-os/gnttab.c:109-117 | the moves of the other domain determine how ending a grant goes |
| MiniOsGrants.EndsAlone | xen-4.1.2/extras/mini-os/gnttab.c:109-117 | left alone, a grant at rest is taken away and one in use stays |
| MiniOsGrants.EndsInUse | xen-4.1.2/extras/mini-os/gnttab.c:109-117 | a grant that comes into use before the exchange stays |
| MiniOsGrants.TxQueue.Xmit | xen-4.1.2/extras/mini-os/netfront.c:597-626 | a fresh transmit id gets a grant reference that nobody had, for reading this frame; nothing else changes |
| MiniOsGrants.TxQueue.TxBufGc | xen-4.1.2/extras/mini-os/netfront.c:186-226 | over all rounds: exactly the answered ids come back with empty buffers, the grant of each was ended and its reference freed exactly if it could be, and the grants of all other packets are untouched |
| MiniOsGrants.SettledBoth | xen-4.1.2/extras/mini-os/netfront.c:190-211 | answers settled one batch after the other are settled together |
| MiniOsGrants.SentThenSettled | xen-4.1.2/extras/mini-os/netfront.c:597-626 | a packet that was sent, and answered by a domain that no longer uses its page, leaves no grant behind |
| MiniOsSched.BoundedWaiting | xen-4.1.2/extras/mini-os/sched.c:93-125 | in any run, a thread that is ready at every selection is selected within one more selection than there are threads ahead of it |
| MiniOsSched.PassedOver | xen-4.1.2/extras/mini-os/sched.c:110-117 | a selection that passes a ready thread over brings it exactly one place forward |
| MiniOsSched.ActKeeps | xen-4.1.2/extras/mini-os/sched.c:143-242 | creating, exiting, blocking, sleeping and waking keep the lists apart and cost a waiting thread no place |
| MiniOsSched.RestsOn | xen-4.1.2/extras/mini-os/sched.c:224-242 | a thread that is blocked, or asleep until some time, is not selected before it is woken or that time comes |
| MiniOsSched.GoneForGood | xen-4.1.2/extras/mini-os/sched.c:204-222 | a thread that has exited is never selected again |
| MiniOsSched.ScheduledRun | xen-4.1.2/extras/mini-os/sched.c:93-129 | what the passes do is a run with at most one selection |
| MiniOsSched.CallRun | xen-4.1.2/extras/mini-os/sched.c:75-242 | every call is a run of acts that leads to the state the call means |
| MiniOsSched.Scheduler.Scan | xen-4.1.2/extras/mini-os/sched.c:97-118 | finds the first ready thread and moves it to the end, or a deadline no later than any wake-up time |
| MiniOsSched.Scheduler.BlockDomain | xen-4.1.2/extras/mini-os/sched.c:121-124 | is only reached with no thread ready and a deadline no later than any sleeper of the list; handlers then wake threads |
| MiniOsSched.Scheduler.Schedule | xen-4.1.2/extras/mini-os/sched.c:75-141 | is a run with one selection, of the first thread ready on the first pass that has one, which ends up last on the list; a thread that resumes frees all exited threads, a thread that starts frees none |
| MiniOsSched.NotFreed | xen-4.1.2/extras/mini-os/sched.c:126-140 | a state in which a thread that has exited is not freed by the switch |
| MiniOsSched.Scheduler.CreateThread | xen-4.1.2/extras/mini-os/sched.c:143-166 | the new thread is ready at any time, last on the list, and has not run |
| MiniOsSched.Scheduler.Msleep | xen-4.1.2/extras/mini-os/sched.c:230-236 | the caller is not runnable and wakes at the given time; what follows is what the passes do from that state |
| MiniOsSched.Scheduler.ExitThread | xen-4.1.2/extras/mini-os/sched.c:204-222 | the caller leaves the list for good, the order of the others stays, and what follows is what the passes do from that state |
| MiniOsSched.Scheduler.FreeExited | xen-4.1.2/extras/mini-os/sched.c:131-140 | the running thread is the only exited one that is not freed |
| MiniOsSched.Scheduler.Drive | xen-4.1.2/extras/mini-os/sched.c:75-242 | any sequence of calls does, act by act, what the calls mean; it is one run that keeps the invariant, and bounded waiting holds over all of it |
| VhdDisk.DataStep | xen-4.1.2/tools/ioemu-qemu-xen/block-vpc.c:416-418 | writing one guest sector in place changes that sector only |
| VhdDisk.AppendStep | xen-4.1.2/tools/ioemu-qemu-xen/block-vpc.c:332-373 | appending a block over the footer changes no guest sector: the new block reads as zeros; BAT, blocks and footer stay in place |
| VhdDisk.BatStep | xen-4.1.2/tools/ioemu-qemu-xen/block-vpc.c:361-366 | changing one BAT entry in the file changes that entry only |
| VhdDisk.SectorsNeeded | xen-4.1.2/tools/ioemu-qemu-xen/block-vpc.c:194-206 | how many sectors the bitmap of a block and the BAT take |
| VhdDisk.Disk.constructor | xen-4.1.2/tools/ioemu-qemu-xen/block-vpc.c:194-217 | the scan of the BAT finds where the footer is |
| VhdDisk.Disk.GetSectorOffset | xen-4.1.2/tools/ioemu-qemu-xen/block-vpc.c:241-304 | where the sector is if its block is allocated; for a write the bitmap of the block is all set; the guest sees no change |
| VhdDisk.Disk.AllocBlock | xen-4.1.2/tools/ioemu-qemu-xen/block-vpc.c:332-373 | succeeds exactly for an unallocated sector that the check lets through; both BATs agree and the footer is right behind the last block |
| VhdDisk.AcceptedInBat | xen-4.1.2/tools/ioemu-qemu-xen/block-vpc.c:340-346 | every sector that the check lets through has a BAT entry if and only if the sector right behind the disk has one |
| VhdDisk.PastTheBat | xen-4.1.2/tools/ioemu-qemu-xen/block-vpc.c:340-346 | a BAT that covers a disk of whole blocks exactly has no entry for a sector that the check lets through |
| VhdDisk.Disk.VpcRead | xen-4.1.2/tools/ioemu-qemu-xen/block-vpc.c:375-398 | exactly the guest sectors, zeros where no block is allocated |
| VhdDisk.Disk.VpcWrite | xen-4.1.2/tools/ioemu-qemu-xen/block-vpc.c:400-426 | changes exactly the sectors written and sets the bitmaps of their blocks; stops only past the end of the disk |
| VhdDisk.Run | xen-4.1.2/tools/ioemu-qemu-xen/block-vpc.c:375-426 | any run of reads and writes on the disk returns and leaves what a flat zero-filled array would |

## Left out

- qcow2 asynchronous I/O, zlib, encryption: plumbing and library calls beside the mapping.
- qcow2 `grow_l1_table`, `grow_refcount_table`, refcount-block creation, the code of `qcow_create` and the I/O error
  paths: the model starts from an image whose tables and counts cover the file.
- Qcow2Image.Image.GetClusterTable: an index past the level-1 table, where the code grows the table, is excluded; so it
  is for the calls built on it.
- Qcow2Store.Store.UpdateClusterRefcount: a cluster whose refcount block is missing, where the code makes one, is
  excluded.
- Qcow2Check.CheckRefcounts: every cluster of the file has its refcount block, and no table word is the COPIED flag
  with cluster 0, which no operation writes.
- Qcow2Check.CheckL1: the same words are excluded.
- qcow2 compressed entries in the level-2 tables of the guest-data theorems: `Qcow2Compressed` covers their space,
  descriptors and freeing; `alloc_compressed_cluster_offset` itself is not modelled.
- qcow2 clusters have a kind (level-1, level-2, data, counts, other) and a sector is a number: the model does not
  capture one byte range being read as two kinds. Only header, snapshot table and descriptors are modelled in bytes.
- Qcow2Reopen.Open: the refcount table, which no modelled operation changes, and the backing file are given rather than
  read from the file; a file that was not left by the driver, and so the failures of `qcow_open`, are not modelled.
- Qcow2Image.Image.QcowWrite: says nothing about the image after an allocation failed. The room asked for is enough
  and not always necessary, since clusters already owned are written in place.
- Qcow2Check.IncRefcounts: tallies in unbounded numbers, so the message about a 16-bit overflow is not modelled.
- Qcow2Compressed.FreeAnyClusters: the compressed branch; the plain branch is part of `Qcow2Image.Image.LinkTable`.
- Qcow2Compressed.ByteAllocator.AllocBytes: disjointness is claimed only while nothing handed out is freed, since the
  cluster being filled may then be counted 0 and taken for something else.
- MiniOsPages.PageAllocator.constructor: a bitmap whose byte size is a whole number of pages is excluded, since the page
  behind it would be marked outside the bitmap.
- Tail records of free chunks in `mm.c` are written and never read, so they are not modelled.
- MiniOsPages.PageAllocator.AllocPages: an order above FREELIST_SIZE, which indexes past the lists, is excluded.
- `munmap`, pinning, page tables and the boot page in `kexec.c`: hypercalls and address arithmetic.
- `evtchn_upcall_mask`: callbacks may start at any time in the model, which only adds interleavings.
- Binding and unbinding of event ports, `unbind_all_ports`.
- IndexLists.IndexList.Transmit: raises the semaphore when the list is complete instead of before; nobody can take an id
  in between.
- MiniOsGrants.TxQueue.Xmit: an empty list of grant references, where the code waits, is excluded; an empty list of
  transmit ids is a refusal.
- MiniOsGrants.TxQueue.TxBufGc: the answers of each round are a parameter; each id in use is answered at most once.
- `gnttab_grant_transfer`, `gnttab_end_transfer`, the receive ring of `netfront.c`, ring indices and notifications.
- Stacks, register switching and the wait queues of semaphores; a semaphore that would block refuses instead.
- VhdDisk.Disk.AllocBlock: for the sector right behind the disk a BAT entry is required.
- VhdDisk.Disk.VpcWrite: the same, for a write that reaches that sector.
- VHD checksums, geometry, image creation and the 32-bit width of BAT entries (offsets are assumed to fit).
- Other block drivers, xenbus handshakes, the GRUB glue and the disassemblers: they would only add easy members.
