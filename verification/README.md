# Verified model of the node's boot, write and rebuild paths

Dafny 4.11 models of the parts of the node where state is rebuilt or written in bulk, with proofs of
what they compute. `dafny verify dfyconfig.toml` checks everything.

The models, in the order they build on each other:

- `Common`, `Bytes`, `Ancestry`, `BlockIndex`: little-endian integers; the parent graph of the block
  index as a functional graph with cycles and dangling links; block index records, the hash table over
  them, and the labels a block should carry.
- `GenesisRecompute`, `Propagation`, `ForwardPass`, `HeightWalk`: the four ways the node relabels an
  index (stack walk from genesis, repeated passes, one height-sorted pass, upward repair), each proved
  against one definition of height, work and transaction count, and against each other.
- `BlockFileScan`, `BlockWire`, `ScanEntries`, `ScanPipeline`, `QuietScan`, `FileOrder`: raw `blk*.dat`
  bytes to framed blocks, the way blocks are written, blocks to entries of an index that may already
  hold others, links re-read from disk, relabelling, and how far the arrangement of blocks over files
  matters.
- `DbService`, `DbProtocol`: the single-writer database service, as a ring buffer with its critical
  sections and as a transition system with explicit wait sets over every interleaving. The protocol's
  steps use the decisions the critical sections are proved to make.
- `Crc32c`, `EventLog`, `UringWriter`, `RebuildShards`: the bulk event-log writer from checksum to
  shards, with the kernel completing writes in any order and at any length, and the log's own recovery
  as the reader.
- `Ledger`, `Reindex`: what connecting blocks does to the coin set, and the replay of the chain through
  the write-back cache.
- `Sidecar`, `Base64`: the UTXO sidecar with its loader, and the two Base64 encoders.

Integer widths are explicit where they matter: counts are modulo 2^32, work modulo 2^256, the sidecar's
64-bit fields and the `int` casts are written out. `GetBlockProof`, the block hash, SHA3 and
`script_is_unspendable` are parameters; so are the outcomes of database commits, of writes on a full
disk and of kernel completions, which makes every statement hold for all of them.

Where the code does not do what its comments say, the model follows the code:

- The orphan height walk is meant to leave every height resolved. It starts from whatever heights the
  scan and the index left, and one pass is sure to resolve them exactly when the block map yields every
  parent that has a parent before its children (`RepairExact`). `RepairOrderMatters` is an order that
  fails, and `RepairKeepsChild` says which fitting blocks a repair leaves behind. Inside the scan this
  does not show, because the genesis recompute runs afterwards.
- The arrangement of blocks over files matters in two places. An entry that is not on disk but claims a
  place there is linked by the bytes at that place: two arrangements give the same links exactly when
  these bytes name the same parents (`JoinedAgree`, `ScanStalePlace`). And a scan that marks nothing
  recomputes nothing, so a block it links takes its labels from its parent as that is at the moment:
  they are the same in every order exactly when they are settled before the scan
  (`SettledIffOrderFree`, `RelinkOrderMatters`).
- The propagation takes a count that wrapped to zero for a missing one; it keeps the recomputed counts
  exactly when that cannot happen under a child (`PassesKeepRerooted`), heights and work in any case
  (`PassesKeepWork`).
- The replay stops on a failed block "to prevent UTXO corruption", but the block's effects up to the
  failure stay in the cache and the final flush persists them (`FailedConnectLeaks`);
  `FailedConnectKeepsCoins` gives the exact condition under which they do not.
- The bounded Base64 encoder casts the remaining length to `int`; it is right exactly below 2^31 bytes
  (`BoundedExact`).
- The scan's file listing stops at three consecutive misses, so blocks in a file behind such a gap are
  not part of the index (`HiddenFile`); `ScanTwoArrangements` therefore speaks of the blocks in listed
  files, and `AllBlocksFound` says when those are all.

## Model

| member | source | states |
|---|---|---|
| `GenesisRecompute.RecomputeFromGenesis` | config/src/boot_block_index_ancestry.c:64-198 | from any index, cycles, parents outside the map and wrong labels included: without genesis nothing changes; with it the memory is exactly `Recomputed` (every entry whose parents lead to genesis carries its distance, its sum of proofs mod 2^256 and its sum of transactions mod 2^32; every other record is unchanged), every other entry is stacked exactly once, reachable + unresolved is the number of entries, `cycles` is the number of distinct parent cycles off genesis, and the three change counters count exactly the labels that were wrong; in plain numbers, an entry k links above genesis ends at height k, with the sum of its k + 1 proofs modulo 2^256 and with the count of genesis plus at least one transaction per block modulo 2^32 |
| `GenesisRecompute.RecomputedSums` | config/src/boot_block_index_ancestry.c:149-182 | the recomputed labels are plain sums over the path to genesis, cut to their width once: no wrapped addition enters the statement |
| `GenesisRecompute.SortPointers` | config/src/boot_block_index_ancestry.c:76-82 | the sorted entry array is strictly increasing and holds exactly the map's entries |
| `GenesisRecompute.FindEntry` | config/src/boot_block_index_ancestry.c:43-58 | binary search finds an index exactly when the pointer is in the array, and then its index |
| `GenesisRecompute.FindGenesis` | config/src/boot_block_index_ancestry.c:84-95 | the position of the entry whose hash is genesis, if the map has one |
| `GenesisRecompute.Climb` | config/src/boot_block_index_ancestry.c:115-147 | the upward walk ends on a fixed entry, on an abandoned one, outside the map, or by biting its own tail, with the marks and the stack agreeing with the path walked |
| `GenesisRecompute.FixEntry` | config/src/boot_block_index_ancestry.c:149-182 | one entry gets its label from its parent, and the counters move by exactly the labels that were wrong |
| `GenesisRecompute.Descend` | config/src/boot_block_index_ancestry.c:149-182 | popping the stack labels the whole path from its fixed end and counts the wrong labels met |
| `GenesisRecompute.Abandon` | config/src/boot_block_index_ancestry.c:183-187 | the whole stack is marked unreachable and no other mark changes |
| `GenesisRecompute.SweepEntry` | config/src/boot_block_index_ancestry.c:115-187 | one turn of the outer loop keeps the sweep invariant, statistics included, and settles its entry for good |
| `GenesisRecompute.SweepComplete` | config/src/boot_block_index_ancestry.c:112-188 | when every entry is settled the fixed ones are exactly those that lead to genesis and all counters are exact |
| `GenesisRecompute.RecomputeIgnoresLabels` | config/src/boot_block_index_ancestry.c:64-198 | two indexes with the same links, bits and transaction counts get the same labels, whatever labels they started with |
| `GenesisRecompute.RecomputeIdempotent` | config/src/boot_block_index_ancestry.c:64-198 | recomputing a recomputed index changes nothing |
| `GenesisRecompute.RecomputeEquations` | config/src/boot_block_index_ancestry.c:149-182 | after a recompute every block that leads to genesis follows from its parent's record in plain arithmetic: height + 1, work + proof modulo 2^256, count + max(nTx,1) modulo 2^32 |
| `BlockIndexModel.Widths` | lib/chain/include/chain/chain.h:87-108 | counts have four bytes and work thirty-two |
| `Ancestry.WalkCycles` | config/src/boot_block_index_ancestry.c:128-131 | a walk into the settled part of the graph meets a new cycle exactly when it bites its own tail, and then exactly one |
| `Ancestry.RootedNotOnCycle` | config/src/boot_block_index_ancestry.c:115-147 | an entry that leads to genesis lies on no parent cycle |
| `Ancestry.DistanceUnique` | config/src/boot_block_index_ancestry.c:97-102 | the distance to genesis is unique, so the height a recompute assigns is well defined |
| `Propagation.Pass` | config/src/boot_index.c:330-377 | one loop over the height-sorted blocks leaves the memory and the change count of `PassTo` |
| `Propagation.PassTxAt` | config/src/boot_index.c:330-377 | the exact count of every block after every prefix of the first pass, wrap-around and forced parents included |
| `Propagation.PassTxExact` | config/src/boot_index.c:330-377 | after the first pass a linked block's count is its parent's plus max(nTx,1) modulo 2^32 if and only if that sum did not wrap to zero on a block with a child in the list |
| `Propagation.TurnInNumbers` | config/src/boot_index.c:330-377 | the counts of a block and its parent after one turn, in plain arithmetic: own transactions at height 0, otherwise parent plus own, a parent without a count first getting its height modulo 2^32 |
| `Propagation.IdleIsFixpoint` | config/src/boot_index.c:375-376 | a pass that reports no change has made none, so the loop never stops before a fixpoint |
| `Propagation.PassWorkExact` | config/src/boot_index.c:330-377 | the exact work after every prefix of the first pass, wrap-around included: a listed block keeps its work if it had any, else has its proof on its parent's final work, else its proof alone if it is a root or a count was forced onto it, else none; other blocks are untouched unless a listed child forces them |
| `Propagation.SecondPassIdle` | config/src/boot_index.c:330-377 | on a height-consistent index with positive proofs and no wrapped count or work the second pass changes nothing and reports zero |
| `Propagation.Propagate` | config/src/boot_index.c:311-381 | memory and total are those of `Passes` for the number of passes made: at most 50, every one but the last changing something, and the last idle unless it is the fiftieth |
| `Propagation.PassesSettle` | config/src/boot_index.c:311-381 | when the fixpoint conditions hold any number of passes leaves and counts exactly what the first one did |
| `Propagation.PassesKeepRerooted` | config/src/boot_block_file_scan.c:576-650 | run after a genesis recompute, any number of passes leaves every block that leads to genesis as it was if and only if none with a listed child has a count that wrapped to zero (at a height that is not a multiple of 2^32); genesis is assumed to have work or no parent |
| `Propagation.PassesKeepWork` | config/src/boot_block_file_scan.c:576-650 | run after a genesis recompute, any number of passes leaves every block that leads to genesis its height and work, whether or not a count wraps; genesis is assumed to have work or no parent |
| `Propagation.PassesStarve` | config/src/boot_block_file_scan.c:612-632 | such a zero count is replaced in every pass |
| `Propagation.RootedTurn` | config/src/boot_index.c:330-377 | the turn of a recomputed block whose parent has a count, or a zero nothing is forced onto, leaves every indexed block as it is, zero work included |
| `ForwardPass.ForwardPass` | config/src/boot.c:2110-2151 | the pass leaves the memory of `ForwardTo`; `best` is null exactly when no listed block has a positive count, data and no failure flag, and otherwise such a block, of maximal work among them and the first of these in the list |
| `ForwardPass.HeightOrderIsParentsFirst` | config/src/boot.c:362-367 | on a height-consistent index the sort puts every parent before its children |
| `ForwardPass.ForwardEquation` | config/src/boot.c:2123-2150 | after the pass every listed block follows from its parent's final record |
| `ForwardPass.ForwardWorkIsRecomputedWork` | config/src/boot.c:2123-2150 | one forward pass gives every block that leads to genesis the work the genesis recompute gives it if and only if genesis inherits no work: its entry has no parent, or the parent's own ancestors carry none, which is read off the index before the pass |
| `ForwardPass.ForwardWorkAt` | config/src/boot.c:2123-2150 | block by block: the work after the pass is the recomputed one on top of what genesis inherits, modulo 2^256 |
| `ForwardPass.CarriedIs` | config/src/boot.c:2123-2150 | the record a block has after any prefix of the pass, as a function of its ancestors before the pass alone |
| `ForwardPass.ForwardTxIsRecomputedTx` | config/src/boot.c:2123-2150 | the counts agree on every block that leads to genesis if and only if every such block tallies beforehand: one without a transaction count, or under a parent whose count is zero, already has the right count, and genesis gets its count from its transactions and from what it inherits, if its entry has a parent |
| `HeightWalk.RepairFrom` | config/src/boot_block_index_ancestry.c:299-343 | one turn with its explicit stack is `FixUp`, and the number of repairs reported is the length of the climb, without the stopping block when that fitted already; it terminates on every graph |
| `HeightWalk.ClimbShape` | config/src/boot_block_index_ancestry.c:308-320 | heights strictly fall along the climb, so no block is met twice |
| `HeightWalk.FixUpFrame` | config/src/boot_block_index_ancestry.c:324-342 | blocks off the climb are not touched |
| `HeightWalk.FixUpPath` | config/src/boot_block_index_ancestry.c:334-342 | on any graph every block below the stopping one ends with height parent + 1 and work parent + proof |
| `HeightWalk.FixUpHeights` | config/src/boot_block_index_ancestry.c:334-342 | heights rise by exactly one along the repaired climb |
| `HeightWalk.FixUpStopsRight` | config/src/boot_block_index_ancestry.c:324-331 | the stopping block fits its parent afterwards if and only if that parent is not itself on the climb |
| `HeightWalk.RepairAcyclic` | config/src/boot_block_index_ancestry.c:299-343 | on an acyclic graph the whole climb, stopping block included, satisfies the height equation, and every rewritten block the work equation |
| `HeightWalk.RepairHeights` | config/src/boot_block_index_ancestry.c:299-343 | the loop over the block map is `RepairTo` in the order the map yields, and reports exactly the repairs counted on the way |
| `HeightWalk.RepairParentsFirst` | config/src/boot_block_index_ancestry.c:299-343 | when the map yields every parent that has a parent before its children one pass leaves every listed height right, whatever the heights were |
| `HeightWalk.RepairExact` | config/src/boot_block_index_ancestry.c:299-343 | for a parent graph and a map order that lists every linked block once: one pass leaves every height right from whatever heights it starts, if and only if every parent that has a parent comes before its children in the order |
| `HeightWalk.FixUpHeightAt` | config/src/boot_block_index_ancestry.c:324-342 | the height every block of the climb ends up with, in terms of the heights before the repair |
| `HeightWalk.RepairKeepsChild` | config/src/boot_block_index_ancestry.c:299-343 | a block that fitted and was not on the climb still fits if and only if its parent is not on the climb or already had the height the climb gives it, both read off the index before the repair |
| `HeightWalk.RepairOrderMatters` | config/src/boot_block_index_ancestry.c:299-343 | a three-block index and a map order after which one height is still wrong, so one pass is not enough in every order |
| `BlockFileScan.FindNextMagic` | config/src/boot_block_file_scan.c:143-156 | the first position at or after the start that holds the magic with room for a header, or none |
| `BlockFileScan.MagicReads` | config/src/boot_block_file_scan.c:145-148 | the magic on disk reads as 0x6427e924 |
| `BlockFileScan.ScanFile` | config/src/boot_block_file_scan.c:201-277 | the position-driven loop reports what `ScanFrom` defines and stays within the file; what that is for blocks as they are written, `ScanReadsBlocks` says |
| `BlockFileScan.ScanSound` | config/src/boot_block_file_scan.c:201-277 | on arbitrary bytes every report is a frame inside the file whose bytes parse to it, and the reported block ranges strictly increase and are disjoint |
| `BlockFileScan.SeamHasNoMagic` | config/src/boot_block_file_scan.c:143-156 | a gap without magic followed by a frame hides no magic across the seam |
| `BlockFileScan.GapSkipped` | config/src/boot_block_file_scan.c:201-277 | over a gap without magic the scan lands exactly on the frame behind it |
| `BlockFileScan.ScanInvertsFraming` | config/src/boot_block_file_scan.c:201-277 | from frames separated by gaps without magic the scan returns exactly the placed blocks that parse, once each, in order, at frame start + 8, until more than twenty in a row fail to parse |
| `BlockWire.CompactReads` | lib/core/src/serialize.c:196-230 | a compact size reads back as the number written, in each of its four lengths, wherever it stands |
| `BlockWire.HeaderReads` | lib/primitives/src/block.c:15-59 | a header written in the order of section 7.6 of the Zcash Protocol Specification reads back field by field, whatever follows it |
| `BlockWire.BlockReads` | config/src/boot_block_file_scan.c:222-268 | the first 1600 bytes of a written block parse to its header's hash, parent, version, time and bits and to its transaction count, one if that is zero or beyond 100000 |
| `BlockWire.ScanReadsBlocks` | config/src/boot_block_file_scan.c:201-277 | from a file of written blocks separated by gaps without magic the scan reports one entry per block, in order, with the fields and the count of that block and the position of its first byte |
| `ScanEntries.ListFiles` | config/src/boot_block_file_scan.c:467-481 | the files listed are, in order, exactly the non-empty ones below the first three consecutive misses |
| `ScanEntries.AppliedFields` | config/src/boot_block_file_scan.c:388-428 | what a block does to an entry that was there: version, time and bits completed together if any was zero; parent looked up only at height 0 without a parent, and then height and work taken from the parent as it is at that moment; place updated, transaction count filled in, all else kept |
| `ScanEntries.CreatedFields` | config/src/boot_block_file_scan.c:78-131 | the entry a block without one gets, field by field: header, place and count of the block, and height and work on top of the parent's or its own proof alone |
| `ScanEntries.ApplyBlock` | config/src/boot_block_file_scan.c:368-431 | one block creates, completes, links or marks its entry in an index that may hold any other entries; every entry is then as the index before the scan and the records say, and the counters count exactly the entries that were new, unmarked or without a header |
| `ScanEntries.ApplyFile` | config/src/boot_block_file_scan.c:368-431 | the same for the blocks of a file |
| `ScanEntries.ApplyPass` | config/src/boot_block_file_scan.c:499-517 | the same for a pass over all files: every block on disk has been met, and if the index held them all from the start every block at height 0 is linked to its parent and the memory is that of the blocks met in file order |
| `ScanEntries.PassDone` | config/src/boot_block_file_scan.c:499-517 | after a pass the index holds the old entries and one for every block on disk |
| `ScanEntries.RetryPasses` | config/src/boot_block_file_scan.c:523-538 | after the retries every block on disk that was at height 0 without a parent is linked, if its parent is known |
| `ScanPipeline.OrphansWait` | config/src/boot_block_file_scan.c:546-556 | the entries counted as orphans are exactly those the index before the scan and the records say |
| `ScanPipeline.OrphanPassRuns` | config/src/boot_block_file_scan.c:546-563 | the orphan pass is entered exactly when a block was new and some entry waits for a parent, both decided before the scan |
| `ScanPipeline.LinkedOk` | config/src/boot_block_index_ancestry.c:210-265 | the orphan pass links a block only to the entry its header on disk names, and an entry that claims a place without a block of its own only to the one the bytes there name |
| `ScanPipeline.ResolveFile` | config/src/boot_block_index_ancestry.c:210-265 | after the link pass over a file no entry with its place in that file whose parent can be found is left unlinked, only parent links changed, and the number reported is that of the entries linked |
| `ScanPipeline.ResolveLinks` | config/src/boot_block_index_ancestry.c:210-265 | after all files every entry whose parent can be found on disk has a parent, no link is lost, and the number reported is that of the entries linked |
| `ScanPipeline.ResolveOrphans` | config/src/boot_block_index_ancestry.c:210-343 | link pass and height walk together leave every link as the joined records of index and files say |
| `ScanPipeline.ScannedStructured` | config/src/boot_block_file_scan.c:368-431 | without an orphan pass the links made when the blocks were met are those the joined records say |
| `ScanPipeline.OldLinked` | config/src/boot_block_file_scan.c:398-409 | a link the index came with stays: it is the one the joined records name, or it leads out of the index |
| `ScanPipeline.HashLabels` | config/src/boot_block_index_ancestry.c:64-198 | the pointer graph gives every block the plain sums of proofs and transactions along the graph of block hashes, cut to 256 and 32 bits once |
| `ScanPipeline.SortByHeight` | config/src/boot_block_file_scan.c:576-590 | the propagation list is sorted by height and holds the entries with a parent or with data |
| `ScanPipeline.StarvedIffWraps` | config/src/boot_block_file_scan.c:612-632 | a propagation pass finds a zero count under a child exactly when some count of the hash graph wraps to zero under a child |
| `ScanPipeline.Relabel` | config/src/boot_block_file_scan.c:567-650 | recompute and propagation give every block that leads to genesis its height and work as the records determine them, and its count if and only if no count under a child wraps to zero |
| `ScanPipeline.WeightsStand` | config/src/boot_block_file_scan.c:567-650 | the propagation changes neither the height nor the work of a block that leads to genesis, wrapped counts included |
| `ScanPipeline.ScanBlockFiles` | config/src/boot_block_file_scan.c:449-650 | from any index holding genesis: `created` is the number of blocks on disk without an entry; something is marked exactly when some block was new, unmarked or without header; then every block that leads to genesis by its links in index and files, stale places included, is at its distance and has its work, and every such block has its count, all as functions of the index before the scan, of the records and of the bytes at stale places, the counts if and only if none under a child wraps to zero; when nothing is marked the memory is that of the blocks met once in file order |
| `FileOrder.ArrangementCatalog` | config/src/boot_block_file_scan.c:499-517 | what the scan learns from an arrangement of blocks over files is exactly what the blocks in its listed files say |
| `FileOrder.WrittenInCatalog` | config/src/boot_block_file_scan.c:255-268 | the record of a block written as blocks are is its header's parent and bits and its transaction count |
| `FileOrder.ScanTwoArrangements` | config/src/boot_block_file_scan.c:449-650 | two arrangements of the same blocks over the numbered files, with any gaps, scanned into the same index: the links of the two results are the same if and only if the bytes at the stale places name the same parents; when there is something to mark every block that leads to genesis by the same chain in both gets the same height and work, and the same count if none wraps to zero; when there is not, every settled entry gets the labels that follow from the index before the scan, and an unsettled one gets different labels in an arrangement that begins with it and in one that begins with its parent |
| `FileOrder.JoinedAgree` | config/src/boot_block_index_ancestry.c:210-265 | what two disks with the same blocks link can differ in the stale places only: the joined records are equal if and only if the bytes there name the same known parents or the orphan pass does not run |
| `FileOrder.SameChainLabels` | config/src/boot_block_index_ancestry.c:64-198 | along a chain both disks agree on, work and counts are the same, wherever other entries are linked |
| `FileOrder.HashChainLeads` | config/src/boot_block_file_scan.c:398-409 | in an index whose links agree with the blocks on disk every block whose hashPrevBlock chain leads to genesis leads to genesis by its links |
| `FileOrder.StalePlaceFollowsBytes` | config/src/boot_block_index_ancestry.c:231-261 | an entry that is not on disk but claims a place in a file that is not there follows any block of any chain once a file without blocks names it at that place; the records stay the same |
| `FileOrder.ScanStalePlace` | config/src/boot_block_file_scan.c:449-650 | two scans of the same index with such files, which hold the same blocks, leave that entry one above the block each names, at two different heights if those two are |
| `FileOrder.RelinkOrderMatters` | config/src/boot_block_file_scan.c:398-409 | when nothing is marked and a block is unsettled, the same blocks can be arranged in two ways (given a file number to spare) after which its height or its work differ |
| `FileOrder.PutFirst` | config/src/boot_block_file_scan.c:467-517 | any block can be put where the scan meets it first without changing the blocks |
| `QuietScan.SettledExact` | config/src/boot_block_file_scan.c:398-409 | in a scan that marks nothing a settled entry ends up, in whatever order the blocks are met, with the parent its header names, one above that parent's height before the scan and with its work plus the proof; an entry that gets no parent keeps its labels |
| `QuietScan.UnsettledDiffers` | config/src/boot_block_file_scan.c:398-409 | met before its parent and met after it, an unsettled block gets a different height or different work |
| `QuietScan.SettledIffOrderFree` | config/src/boot_block_file_scan.c:398-409 | an entry gets the same labels in every order in which the blocks can be met if and only if it is settled, which the index before the scan decides: it gets no parent, is its own parent, or has a parent that gets none or whose labels its own new parent leaves as they are |
| `QuietScan.LinkedStays` | config/src/boot_block_file_scan.c:398-409 | a link once made stays, with the height and work it came with |
| `QuietScan.PassCovers` | config/src/boot_block_file_scan.c:499-517 | one pass over the files meets every block of the records and no other |
| `FileOrder.AllBlocksFound` | config/src/boot_block_file_scan.c:467-481 | the scan misses no block if and only if every block of a file it does not list lies in one it lists as well |
| `FileOrder.HiddenFile` | config/src/boot_block_file_scan.c:467-481 | a file behind three missing ones is never listed, and its contents make no difference |
| `DbService.Service.constructor` | config/src/db_service.c:19-30 | an empty queue with no stop requested |
| `DbService.Service.Submit` | config/src/db_service.c:162-194 | the submitter's critical section enqueues at the end exactly when stop is unset and there is room, sleeps exactly when the call is synchronous, stop unset and the queue full, and refuses otherwise |
| `DbService.Service.WorkerSection` | config/src/db_service.c:115-137 | the worker's critical section takes the oldest job whenever there is one, even when stopping, leaves exactly on an empty queue with stop set, and sleeps otherwise |
| `DbService.Service.RequestStop` | config/src/db_service.c:339-361 | stop is set and the queue left alone |
| `DbProtocol.NextKeeps` | config/src/db_service.c:115-194 | every step of every thread (submissions, worker, inline jobs, stop, spurious wake-ups) keeps the invariant |
| `DbProtocol.RunInv` | config/src/db_service.c:115-194 | the invariant holds in every state of every run, for every capacity and any number of submitters |
| `DbProtocol.NoLostWakeup` | config/src/db_service.c:122-194 | in every reachable state a submitter asleep on the shared condition faces a full queue and a sleeping worker an empty one, both with stop unset |
| `DbProtocol.SignalReachesWorker` | config/src/db_service.c:180-184 | when a job is enqueued the only possible sleeper is the worker, so the single signal is never lost on a submitter |
| `DbProtocol.SomeoneCanAdvance` | config/src/db_service.c:115-194 | while a submission is pending some thread can advance without any new arrival, stop or spurious wake-up |
| `DbProtocol.HistoryGrows` | config/src/db_service.c:115-194 | accepted, performed, run and released histories only grow, and nothing is accepted once stop is set |
| `DbProtocol.ExactlyOnceFifo` | config/src/db_service.c:115-194 | the performed jobs are a prefix of the accepted ones in order, no job runs twice, and a job that was not accepted never runs unless the worker itself submitted it |
| `DbProtocol.DrainedOnExit` | config/src/db_service.c:339-361 | from the moment the worker has left, the queue is empty, everything accepted has been performed and nothing more is accepted |
| `DbProtocol.ReturnsOwnResult` | config/src/db_service.c:162-194 | a synchronous submission returns its own job's result after that job ran; a refused one returns false |
| `DbProtocol.ResultIsPerformed` | config/src/db_service.c:139-160 | the result on record for a performed job is the one its own turn on the database gave, in every run |
| `DbProtocol.SubmitOutcome` | config/src/db_service.c:172-193 | in every run a submission at its turn is accepted and queued exactly when stop is unset and there is room, an asynchronous one then returning true; it is refused, its context released, once stop is set or when an asynchronous one finds the queue full; otherwise it sleeps |
| `DbProtocol.CollectOutcome` | config/src/db_service.c:186-193 | a synchronous caller that wakes returns its result once its job is done, waking everyone on the shared condition if there is room, and sleeps again otherwise |
| `DbProtocol.WorkerOutcome` | config/src/db_service.c:115-137 | in every run the worker takes the oldest job whenever there is one and then nobody sleeps for room; otherwise it leaves or sleeps as stop says |
| `DbProtocol.StopOutcome` | config/src/db_service.c:339-361 | a stop request sets stop, keeps the queue and leaves nobody asleep on the shared condition |
| `DbProtocol.FinishOutcome` | config/src/db_service.c:139-160 | handing a job back releases an asynchronous context, or marks a synchronous job done with its caller awake |
| `DbProtocol.ReleasedOnce` | config/src/db_service.c:484-519 | an asynchronous context is released exactly once: after its job was handed back if accepted, when the call returned if not |
| `DbProtocol.PendingKeepsWorkerBusy` | config/src/db_service.c:115-160 | while an accepted job is unperformed the worker is awake and has a step to take |
| `DbProtocol.RankFalls` | config/src/db_service.c:115-160 | no step delays a pending job and every worker step brings it closer |
| `DbProtocol.AcceptedIsPerformed` | config/src/db_service.c:115-160 | every accepted job has been performed after a bounded number of worker steps, however everything else interleaves |
| `DbProtocol.AcceptedIsHandedBack` | config/src/db_service.c:139-160 | every accepted job has been performed and handed back after a bounded number of worker steps |
| `DbProtocol.AcceptedReturns` | config/src/db_service.c:162-194 | after those steps the caller of an accepted synchronous job is awake or has returned, and its next turn at the mutex makes it return its own job's result |
| `Crc32c.CrcInit` | tools/rebuild_recent.c:123-131 | table entry i is the eight-fold shift of i by the reflected polynomial |
| `Crc32c.TableStep` | tools/rebuild_recent.c:132-139 | one table look-up is eight bit-serial steps |
| `Crc32c.Crc32cTable` | tools/rebuild_recent.c:132-139 | for every length the table loop is the bit-by-bit reflected CRC-32C of section 12.1 of RFC 3720 |
| `Crc32c.ShiftWord` | tools/rebuild_recent.c:142-150 | shifting a whole 64-bit word through the register is shifting its eight bytes one by one |
| `Crc32c.Instruction64Is` | tools/rebuild_recent.c:142-150 | the 64-bit CRC instruction, defined as polynomial division of the register over the word, is eight byte steps |
| `Crc32c.Crc32cWords` | tools/rebuild_recent.c:142-150 | for every length the eight-bytes-then-tail loop is the same bit-by-bit CRC |
| `Crc32c.CrcFits` | tools/rebuild_recent.c:163-163 | the checksum fits in 32 bits, so storing four bytes loses nothing |
| `Crc32c.CheckValue` | tools/rebuild_recent.c:123-150 | the checksum of 123456789 is E3069283, stored lowest byte first |
| `Bytes.LeAt` | tools/rebuild_recent.c:163-163 | byte i of a stored number is the one of weight 256^i |
| `EventLog.Recover` | lib/storage/src/event_log.c:253-311 | the recovery loop ends at the end of the longest sequence of good events |
| `EventLog.StreamPush` | tools/rebuild_recent.c:275-293 | appending an event appends its frame, whose sentinel holds the offset the log had reached |
| `EventLog.FrameParts` | tools/rebuild_recent.c:281-290 | where the length, type, flags, checksum, payload, sentinel and offset of an event lie in its frame |
| `EventLog.ChecksumCheck` | tools/rebuild_recent.c:284-285 | the checksum of the payload 123456789 is stored as 83 92 06 E3 |
| `EventLog.SentinelBytes` | tools/rebuild_recent.c:287-287 | the sentinel on disk spells ZCLEVTLG |
| `EventLog.ReadsFrame` | lib/storage/src/event_log.c:270-310 | a frame in place is read back as its event |
| `EventLog.ReadIsFrame` | lib/storage/src/event_log.c:270-310 | whatever is read as an event is, byte for byte, that event's frame at that offset |
| `EventLog.RecoveredIsPrefix` | lib/storage/src/event_log.c:253-311 | what recovery keeps of arbitrary bytes is exactly the log of the events it reports |
| `EventLog.RecoveredIsLongest` | lib/storage/src/event_log.c:253-311 | recovery never stops early: any log the file begins with is kept whole |
| `EventLog.TornLogRecovered` | lib/storage/src/event_log.c:253-311 | a log cut at any byte is recovered to exactly the events that end before the cut |
| `UringWriter.FullPwrite` | tools/rebuild_recent.c:203-209 | repeated short writes come to one whole write |
| `UringWriter.CompletionKeepsCore` | tools/rebuild_recent.c:211-231 | completing any in-flight buffer, finished synchronously when short, keeps every byte of the log accounted for |
| `UringWriter.SubmitKeepsCore` | tools/rebuild_recent.c:242-260 | submitting a buffer keeps in-flight ranges pairwise disjoint and hands its bytes to the kernel |
| `UringWriter.AppendKeepsCore` | tools/rebuild_recent.c:275-293 | refilling a buffer that is not in flight disturbs nothing |
| `UringWriter.IdleCore` | tools/rebuild_recent.c:338-346 | with nothing in flight the file is the log so far |
| `UringWriter.EventInOneBuffer` | tools/rebuild_recent.c:263-293 | no event straddles two buffers: the bytes of an event lie inside an in-flight stretch or outside it |
| `UringWriter.Writer.BufferAligned` | tools/rebuild_recent.c:263-293 | the buffer being filled begins and ends between two events |
| `UringWriter.WritableStep` | tools/rebuild_recent.c:275-293 | an event can be appended exactly when it fits a buffer and the ring takes the buffer it displaces, if any |
| `UringWriter.Writer.constructor` | tools/rebuild_recent.c:295-335 | an empty log with no buffer in flight |
| `UringWriter.Writer.ReapOne` | tools/rebuild_recent.c:211-231 | one completion, of any buffer and any length, keeps the pool valid and frees that buffer |
| `UringWriter.Writer.Reap` | tools/rebuild_recent.c:211-231 | reaping keeps the pool valid and, when blocking, frees at least one buffer |
| `UringWriter.Writer.GetFree` | tools/rebuild_recent.c:233-240 | returns a buffer that is not in flight, and terminates |
| `UringWriter.Writer.Send` | tools/rebuild_recent.c:263-272 | the current buffer goes into flight whole; with it every stretch in flight still begins and ends between two events |
| `UringWriter.Writer.Flush` | tools/rebuild_recent.c:263-272 | an empty buffer stays; otherwise it is sent, which succeeds exactly when the ring takes the submission, and a free buffer becomes current |
| `UringWriter.Writer.Append` | tools/rebuild_recent.c:275-293 | succeeds exactly when the event fits a buffer and the ring takes the buffer it displaces; then the log has grown by exactly this event; an event larger than a buffer is refused and nothing changes |
| `UringWriter.Writer.Place` | tools/rebuild_recent.c:275-293 | the frame is copied whole into the buffer being filled, which is not in flight |
| `UringWriter.Writer.Finish` | tools/rebuild_recent.c:338-346 | succeeds exactly when the ring takes every submission the events need; then the file is exactly the concatenation of the appended frames and nothing is in flight |
| `UringWriter.WriteLog` | tools/rebuild_recent.c:275-346 | succeeds exactly when every event fits a buffer and the ring takes every submission; then, for every completion order and every pattern of short writes, the file is the log of the events, and a reader using only its fields recovers exactly those events |
| `RebuildShards.FrameBlock` | tools/rebuild_recent.c:382-441 | a block appends exactly its events in order: its header, its body, every output as added and every input of a transaction that is no coinbase as spent, with their payloads; the counters move by what it holds; it succeeds exactly when all can be appended |
| `RebuildShards.RunRange` | tools/rebuild_recent.c:447-465 | succeeds exactly when the events of its heights can be written; then its file is the log of those events, which say kind by kind what the blocks hold, and its tally counts them |
| `RebuildShards.RangeCount` | tools/rebuild_recent.c:525-555 | 2*blocks + adds + spends is the number of events of a range |
| `RebuildShards.RangeSays` | tools/rebuild_recent.c:382-441 | the payloads of kinds 1, 2, 5 and 6 among the events of a range are its headers, its bodies, its outputs and the inputs of its transactions that are no coinbase, each in order, and the tally is their numbers |
| `RebuildShards.EventPlaces` | tools/rebuild_recent.c:411-437 | where each event of a block stands: behind two per block below, one per output and one per input spent there; header, body, then per transaction its outputs before its inputs |
| `RebuildShards.RangeJoin` | tools/rebuild_recent.c:525-555 | events and tallies of adjacent ranges join |
| `RebuildShards.ShardsPartition` | tools/rebuild_recent.c:525-547 | for every lo <= tip and NT >= 1 the heights covered by the segments' computed bounds are exactly lo to tip, and no height lies in two segments |
| `RebuildShards.Rebuild` | tools/rebuild_recent.c:525-555 | the segments together hold the events of the range in order; success is success of every segment, and then every segment is a complete log, the events say kind by kind what the blocks of the range hold, and the totals reported are their numbers |
| `Ledger.FailedConnectKeepsCoins` | lib/validation/src/connect_block.c:102-688 | a failed `connect_block` keeps the best block, and leaves the coin set as it was if and only if it failed before the coinbase was applied, or the coinbase changes nothing (it has no outputs to add, or an earlier attempt left them) and the second transaction takes no input |
| `Ledger.FailedConnectLeaks` | lib/validation/src/connect_block.c:102-688 | a two-transaction block that is refused and still leaves its coinbase in the set |
| `Ledger.CoinbaseStays` | lib/validation/src/connect_block.c:367-386 | inside a block nothing can spend the block's own coinbase: maturity forbids it |
| `Ledger.ReplayStops` | config/src/boot_index.c:225-265 | the replay keeps the state of its first failure |
| `Ledger.SpendsExact` | lib/validation/src/update_coins.c:34-88 | the inputs of a transaction can be spent if and only if each is an unspent output of a value between 0 and 21 million coins and none is named twice |
| `Ledger.UpdateExact` | lib/validation/src/update_coins.c:24-120 | after a transaction went through, the unspent outputs under its id are exactly its spendable outputs that are not null, at its height and with its coinbase flag, and under every other id those that were there and are no input of it |
| `Ledger.UpdatesExact` | lib/validation/src/update_coins.c:24-120 | a transaction goes through if and only if its inputs can be spent, it has at most 65536 outputs and the values it adds are between 0 and 21 million coins |
| `Ledger.AdmittedExact` | lib/validation/src/connect_block.c:356-476 | a transaction is admitted if and only if every input names an unspent output whose record, if a coinbase's, is at least 100 blocks deep, and the rules accept it with exactly those records |
| `Ledger.ConnectStepExact` | lib/validation/src/connect_block.c:354-589 | when one more transaction of a block goes through, what it leaves of the coins, and that the records it draws on are appended in order |
| `Ledger.ConnectExact` | lib/validation/src/connect_block.c:102-688 | a block connects if and only if it passes its checks and, unless it is genesis, follows the best block, overwrites no outputs of another height outside the deferred range, all its transactions go through and the rules accept the records spent |
| `Ledger.ConnectHolds` | lib/validation/src/connect_block.c:354-589 | connecting the transactions of a block leaves exactly the coins that live after them |
| `Ledger.ReplayHolds` | config/src/boot_index.c:225-265 | a replay that went through holds exactly the outputs that some transaction of the chain made, or that were there, and that no later one spent or replaced, with their values, heights and coinbase flags; its best block is the last |
| `Reindex.ViewPut` | lib/coins/src/coins_view.c:213-236 | writing a dirty entry changes the visible coin set at that transaction and nowhere else |
| `Reindex.ViewLoaded` | lib/coins/src/coins_view.c:159-184 | loading an entry, clean or dirty, shows nothing new |
| `Reindex.WrittenIsView` | lib/storage/src/coins_view_sqlite.c:929-998 | writing the dirty entries and skipping the clean ones turns the database into the set the cache showed over it |
| `Reindex.WrittenStep` | lib/storage/src/coins_view_sqlite.c:929-998 | one dirty entry replaces or deletes its own rows only |
| `Reindex.ChainState.Fetch` | lib/coins/src/coins_view.c:159-184 | returns the visible record and changes nothing visible |
| `Reindex.ChainState.HaveCoins` | lib/coins/src/coins_view.c:186-197 | true exactly when the visible set has the transaction |
| `Reindex.ChainState.SpendInput` | lib/validation/src/update_coins.c:34-88 | spends one output of the visible set, or fails leaving it unchanged |
| `Reindex.ChainState.Update` | lib/validation/src/update_coins.c:24-120 | the visible set and the verdict are those of `UpdateCoins` on the old visible set, failures included; on success exactly the outputs made are added and exactly the inputs are gone |
| `Reindex.ChainState.Admit` | lib/validation/src/connect_block.c:356-476 | the maturity and input loops and the rules over the records spent so far decide `Admitted` and leave the visible set alone |
| `Reindex.ChainState.FindClash` | lib/validation/src/connect_block.c:219-283 | true exactly when, outside the deferred range, a transaction's id holds unspent outputs of another height or any at height 0 |
| `Reindex.ChainState.ConnectAll` | lib/validation/src/connect_block.c:354-589 | the transactions of a block move the visible set as `ConnectTo` does, up to the first failure |
| `Reindex.ChainState.Connect` | lib/validation/src/connect_block.c:102-688 | the visible set, best block and verdict are those of `ConnectBlock`, failures included |
| `Reindex.ChainState.Stage` | lib/storage/src/coins_view_sqlite.c:929-998 | the rows staged one by one are exactly the visible set |
| `Reindex.ChainState.Flush` | config/src/boot_index.c:130-152 | a successful flush makes the database the visible set and empties the cache; a failed one leaves cache, database and visible set as they were |
| `Reindex.ChainState.ReplayAll` | config/src/boot_index.c:225-275 | the visible state is the flush-free replay of the heights reached, wherever the flushes fell |
| `Reindex.ChainState.ReindexChainstate` | config/src/boot_index.c:175-297 | on success the database and its anchor are exactly the flush-free replay of all heights, and the database holds exactly the outputs that the chain's transactions made and did not spend; when the flushes commit the replay holds of failures too, with the verdict |
| `Base64.EncodeGroup` | main.c:506-530 | the definition of section 4 of RFC 4648 over bits falls into groups of three bytes and four characters |
| `Base64.Alphabet` | tools/zcl-nodectl.c:170-171 | the letters are A to Z, a to z, 0 to 9, plus and slash, in this order |
| `Base64.EncodeTail` | main.c:506-530 | writes the RFC 4648 encoding and a terminator, and nothing behind it |
| `Base64.EncodeBounded` | tools/zcl-nodectl.c:173-189 | writes as many whole groups as fit, a terminator in bounds, and nothing behind it |
| `Base64.GroupsArePrefix` | tools/zcl-nodectl.c:173-189 | below 2 GiB of input the groups written are a prefix of the RFC 4648 encoding |
| `Base64.BoundedExact` | tools/zcl-nodectl.c:173-189 | with room for everything the bounded encoder produces the RFC 4648 encoding if and only if the input is below 2^31 bytes (the cast of the remaining count to int) |
| `Base64.DecodeEncode` | main.c:506-530 | decoding the encoding gives the input back, for every input |
| `Sidecar.FirstEncoded` | lib/chain/src/utxo_snapshot_loader.c:149-170 | a record is read back from the front of any bytes that start with it |
| `Sidecar.RecordsOfBody` | lib/chain/src/utxo_snapshot_loader.c:149-170 | the body decodes back to its records, whatever follows |
| `Sidecar.BodyInjective` | main.c:797-827 | two record lists with the same bytes are the same list |
| `Sidecar.SignedRoundTrip` | lib/chain/src/utxo_snapshot_loader.c:105-105 | a signed value survives the cast to unsigned and back if and only if it fits in 64 bits |
| `Sidecar.OpenWritten` | lib/chain/src/utxo_snapshot_loader.c:50-140 | a file whose header carries the hash of its body is accepted and its header read back, unless another hash is expected |
| `Sidecar.Iterate` | lib/chain/src/utxo_snapshot_loader.c:149-170 | the loader hands out the records in order up to the first the visitor refuses, that one included, or the whole count; it fails exactly on reaching a record that is not there whole |
| `Sidecar.Generator.Write` | main.c:785-795 | bytes reach the hash exactly when they reached the file whole |
| `Sidecar.Generator.WriteRecord` | main.c:811-822 | the seven writes are the record's bytes; they fail exactly when the file has no room |
| `Sidecar.Generator.Visit` | main.c:797-827 | one coins record adds its outputs to file, hash, count and supply |
| `Sidecar.Stream` | main.c:901-903 | the whole iteration feeds the hash exactly the body bytes and succeeds exactly when they fit |
| `Sidecar.Generate` | main.c:892-937 | on success the file is the header over the body; when the stream fails the loader refuses the file; when the header rewrite fails the file is the body under the header bytes that got through and zeros |
| `Sidecar.HalfWrittenOpens` | lib/chain/src/utxo_snapshot_loader.c:50-140 | the loader accepts a file whose header was cut after some bytes if and only if at least nine got through and, with verification on, the missing part of the hash is zero |
| `Sidecar.GeneratedLoads` | lib/chain/src/utxo_snapshot_loader.c:50-170 | a generated file is accepted with verification on; its records are the outputs visited in order, with txid, index, value, script, height and coinbase flag of each; the count is their number, and the supply is their sum if and only if the sum fits in 64 bits |
| `Sidecar.TopHeightIs` | main.c:806-807 | the height in the header is the greatest height visited, at least 0 |
| `Sidecar.SupplyOne` | main.c:823-824 | the supply grows by the value of each output |
| `Sidecar.MagicSpells` | main.c:924-924 | the file begins with ZCLUTXO and a zero byte |

## Left out

- `blk_sync.dat`: it is recorded as file 255 while the orphan pass opens `blk00255.dat`, so the scan theorems are for the numbered files only.
- Parallel parsing, `mmap`, progress output, and allocation failures in the scan and the recompute (a stack that cannot grow).
- Block files of 4 GiB and more: a block's position is a 32-bit field.
- ScanPipeline.ScanBlockFiles: assumes no two different blocks with one hash (the records form one catalog), that all listed files are read in full, and, for the labels, that genesis has work or no parent.
- FileOrder.ScanTwoArrangements: when a count wraps to zero under a child, the counts of the two results are not compared; heights and work are.
- BlockFileScan.ScanFile: the counters of skipped and corrupt stretches, which are only printed, are not described; of the number of blocks a scan marks, ScanBlockFiles says only whether it is zero.
- `block_index_build_skip`, the Merkle and Sapling fields, and entries whose `phashBlock` is null.
- The order of the block map is arbitrary in the model; hashing and bucket layout are not modelled.
- The entry array, mark array, stack and staging buffers are sequences that the methods reassign, so aliasing of raw buffers is not captured; the Base64 output buffers are arrays.
- Mutexes are modelled by one atomic step per critical section; restart of the service, the race on `started`, the write-ahead-log checkpoint thread, the query handle and the lifetime of job records are not modelled, and no client submits a STOP job.
- Fairness of the thread scheduler: AcceptedIsPerformed and AcceptedReturns count worker steps and the caller's own turn instead of assuming them.
- Error completions and the ring memory of io_uring, and `fsync`; a completed write is applied to the file when it is reaped, which the disjoint ranges make equivalent to any earlier moment.
- UringWriter.Writer.Append: payloads of 2^32 - 32 bytes and more, whose framed size does not fit the source's 32-bit size, are excluded.
- The SSE4.2 instructions are modelled by their definition (polynomial division), not by hardware.
- The events of a block are modelled from its parsed transactions; the payload encodings inside `frame_block` and the reading of blocks from the legacy index are parameters.
- Ledger.FailedConnectKeepsCoins: when the coinbase changes nothing, blocks whose second transaction spends an output of itself or of a later transaction are not covered; ids that are hashes rule them out.
- Base64.EncodeBounded: an output size of zero is excluded; the source then still stores a terminator, outside the buffer.
- Reindex.ChainState.Connect: scripts, signature operations, fees, rewards, shielded pools and proof of work are parameters over the block and the coins it spends; undo data and the UTXO commitment are not modelled.
- Reindex.ChainState.ReindexChainstate: database settings around the replay, allocation failures of the cache and the shielded-tree state keys are not modelled.
- The record counter and least height of the snapshot generator, which are only printed.
- Sidecar.Generate: scripts of 4 GiB and more, whose length field would be cut, are excluded by the record's widths.
- Boot policy, wallet start-up, RPC, Tor, supervisors, the frontend, bots and tools other than the ones above: orchestration and input/output that would only add easy members.
