# A model of the 2-Tree storage engine

2-Tree keeps hot records in memory and cold records on disk, in several designs: two B+trees with
records migrating between them, an LSM tree whose flushes and lookups migrate records upwards, and an
anti-cache. Below them are index structures of its own: a B+tree with optimistic lock coupling, the STX
B+tree, an adaptive radix tree, and epoch-based reclamation of unlinked nodes. This project models the
hardest of these and proves that they do what they are for.

Concurrent protocols are step machines. A state is a value, a step is a relation, and the theorems are
about every state of every run with any number of threads. The proofs go through an inductive invariant
and one preservation lemma for each kind of step. Sequential structures are classes and methods proved
against functions on their content.

| files | what they model |
|---|---|
| OlcNodes, OlcTree, OlcSplit, OlcRuns, OlcAlone | optimistic lock coupling: interleaved lookups, inserts and removals with eager splits and restarts |
| OlcPage | the leaf page's arrays, updated in place |
| OlcMerge, OlcErase | merging and borrowing after a removal, single-threaded |
| OlcSingle | all runs of one thread: insert attempts, removals and repairs |
| Migration, MigrationProof, MigrationPut, MigrationLive | record migration in the LSM tree, with striped version words and lock-table snapshots |
| TwoTree, TwoTreeProof, TwoTreeGap, TwoTreeAnswers, TwoTreeLive | the hot and the cold tree, with the inflight flag as a token |
| Ebr, EbrProof, EbrLate, EbrHeld, EbrLive | epoch-based reclamation, every shared access a step |
| LockWords | the pessimistic reader/writer words |
| StxNodes, StxSteps, StxLeafList, StxErase, StxBulk, StxTree, StxVerify | the STX B+tree: insert, erase, bulk load, self-check |
| AntiRing, AntiCache, AntiScan | the anti-cache: recency ring, eviction blocks, merged scan |
| ArtNodes, ArtLayout, ArtSlots, ArtTree, ArtIndex, ArtOrder, ArtIter | the adaptive radix tree and its iterator |
| CrcBits, Crc, CrcParts, CrcPoly, CrcOutput, CrcEngine, CrcStandards | the CRC engine and what its remainders mean |
| Options | the option type |

Some things the code does not do as one would expect are stated as such:

- In exclusive mode a lookup gives the inflight token back before it removes the cold copy. An evictor's cold
  insert of the key in between can lose it (`GapLosesKey`). Exactly these inserts can (`LosesIffGapInsert`).
- Entering a critical region loads the global epoch and stores it as the local one in two steps. If the epoch
  advances twice in between, a node can be freed under a thread that saw it retired (`LateStoreFrees`).
  `FreeIsSafe` and `WithinOneEpoch` hold for timely stores. `StoreKeepsInvIff` and `StoreIsSafeIff` say which
  stores are safe.
- A put takes no lock. A flush can put an older record over it (`PutOvertaken`). `PutKeepsInvIff` and
  `PutIsSafeIff` give the exact condition.
- Merging inner nodes of the lock-coupling B+tree walks to the last leaf of the left one and asserts that it
  holds a key. Repairing an emptied leaf that is an only child can lead this walk to that very leaf
  (`OnlyChildBreaks`, `LastLeafBreaks`). `EraseMerge` says exactly when. Inner pages get an only child through
  their own splits below a capacity of five (`SplitLeavesKeys`). From there on no run of one thread fails (`Run`).
- Continuing a reflected CRC from an earlier one fails when the initial value or the final exclusive-or
  has bits above the width that reach the CRC (`PartsFail`). `PartsMakeWholeIff` gives the exact condition.
  The documentation of `UndoFinalize` says the original remainder always comes back.
- The self-check of the STX tree accepts equal keys also in trees without duplicates (`WalkAcceptsEqualKeys`).
- Iterating over a radix tree with one item yields nothing (`IterateOne`).
- The scan of the anti-cache starts over after a full buffer that ends with the largest key value, and delivers
  tuples twice unless its processor has refused by then (`Scan`, `ScanFullBuffer`).
- Removing an absent key from the lock-coupling B+tree returns false, but in builds with asserts it fails one
  (backend/btreeolc/btreeolc.hpp:2880). The model returns false.
- Inserting an evicted key into the anti-cache leaves it both cached and evicted (`AntiCache.Store.Insert`).
- An update of a key that neither tree holds retries for ever (`AbsentNeverDone`).

Conventions: keys and payloads are integers; `latest`, `log`, `commits`, `since`, `at`, `guards`, `seen`,
`writes` and ages are bookkeeping that no step tests. Slot counts of the STX tree are symbolic, at least 8.
CRC values are bit sequences of symbolic width, least significant bit first. Calls into the database and the
page store read and write abstract maps, random decisions are left open or are parameters, and memory
pressure is a parameter. "Left alone" means that only the steps of one thread follow.

## Model

| member | source | states |
|---|---|---|
| `OlcRuns.TreeIsReplay` | backend/btreeolc/btreeolc.hpp:1528-1677 | in every state of every interleaving of lookups, inserts and removals, the tree binds exactly the keys and values that replaying the committed inserts and removals in commit order gives; each is logged with whether it changed that map; each has committed once iff it is past its write |
| `OlcRuns.AnswersAreReplayed` | backend/btreeolc/btreeolc.hpp:1528-1677 | every operation that has returned answers as if executed alone at one place of the log between its start and its end: an insert or removal at its own entry, whether it changes the map replayed up to there, and a lookup what that map binds its key to |
| `OlcRuns.OneCommitEach` | backend/btreeolc/btreeolc.hpp:1603-1677 | every entry of the log is the one write of one operation |
| `OlcRuns.BookkeepingStays` | backend/btreeolc/btreeolc.hpp:1528-1677 | the log only grows, a thread keeps its operation and the place in the log it started at, and a returned answer stays |
| `OlcRuns.LookupIsCurrent` | backend/btreeolc/btreeolc.hpp:3020-3074 | a lookup whose version checks all pass returns what the replayed map binds its key to at that moment, and this is also what it was bound to when the parent was last re-validated (or, where the leaf is the root, when the leaf had been read) |
| `OlcRuns.RunInv` | backend/btreeolc/btreeolc.hpp:1528-1677 | every reachable state keeps the tree shape, key ranges, lock ownership and every thread's knowledge of what it has read |
| `OlcRuns.WriteStep` | backend/btreeolc/btreeolc.hpp:1603-1677 | a step that writes a leaf (insert, leaf split or removal) keeps the tree invariant, has exactly the effect of its operation on the map, and carries to the unlocking, which AnswersAreReplayed follows to the caller, whether that changed anything |
| `OlcRuns.SilentStep` | backend/btreeolc/btreeolc.hpp:1528-1677 | every other step, inner splits, new roots, locking and restarts included, leaves the map as it is and keeps the tree invariant |
| `OlcRuns.CommitCount` | backend/btreeolc/btreeolc.hpp:1528-1677 | an operation passes from before to after its write exactly in a writing step, so no insert or removal takes effect twice, restarts or not |
| `OlcRuns.NeverStuck` | backend/btreeolc/btreeolc.hpp:1528-1677 | a thread that has not finished can always take a step: no leaf or parent is full where the code asserts room |
| `OlcAlone.FinishesAlone` | backend/btreeolc/btreeolc.hpp:1528-1677 | from any unlocked tree, every lookup, insert and removal that runs alone finishes and leaves the tree unlocked: an insert is turned back only finitely often |
| `OlcAlone.SplitHelps` | backend/btreeolc/btreeolc.hpp:1547-1601 | each time it is, the first full inner page on its way has been split; there are then fewer full inner pages, or as many with the parent of that page among them, which the next attempt comes to first |
| `OlcAlone.AttemptAlone` | backend/btreeolc/btreeolc.hpp:1528-1677 | left alone on an unlocked tree, every attempt of a lookup, insert or removal comes to an end: it has its answer, has written, or starts again with a full inner page split; the tree is unlocked again |
| `OlcAlone.AttemptEnds` | backend/btreeolc/btreeolc.hpp:1528-1677 | no attempt left alone goes on for more than twenty steps a page and twenty-two more, however it chooses: no version check turns it back without need |
| `OlcAlone.ChainGrows` | backend/btreeolc/btreeolc.hpp:1586-1601 | a descent from the root visits no page twice |
| `OlcAlone.CanStart` | backend/btreeolc/btreeolc.hpp:1528-1545 | any operation can be started at any time |
| `OlcTree.ThreadFrame` | backend/btreeolc/btreeolc.hpp:189-311 | what a thread knows from the versions it read survives every change made by others under locks it does not hold |
| `OlcSplit.PutInLeafOk` | backend/btreeolc/btreeolc.hpp:1656-1676 | inserting into the covering leaf keeps the tree invariant and changes the map at that key only |
| `OlcSplit.CutFromLeafOk` | backend/btreeolc/btreeolc.hpp:2798-2861 | removing from the covering leaf keeps the tree invariant and unbinds that key only |
| `OlcSplit.LinkOk` | backend/btreeolc/btreeolc.hpp:1633-1650 | hanging both halves of a split under the parent keeps one parent per node, key ranges and bounds of every page |
| `OlcSplit.AddRootOk` | backend/btreeolc/btreeolc.hpp:1299-1308 | a new root over the old one keeps the tree invariant and the map |
| `OlcSplit.DoSplitOk` | backend/btreeolc/btreeolc.hpp:1551-1655 | a split with its link into the parent or the new root: for a leaf it also adds the pending binding, for an inner node the map is unchanged |
| `OlcNodes.SearchPage` | backend/btreeolc/btreeolc.hpp:652-672 | linear search below 128 keys and binary search above both return the first position whose key is not less |
| `OlcNodes.LeafPutOk` | backend/btreeolc/btreeolc.hpp:740-766 | a leaf insert keeps keys sorted and in range, and adds one slot iff the key was absent |
| `OlcNodes.LeafPutGet` | backend/btreeolc/btreeolc.hpp:740-766 | after it, the leaf binds the new key unless it was bound before, and every other key as before |
| `OlcNodes.LeafCutOk` | backend/btreeolc/btreeolc.hpp:540-565 | a leaf without a key stays sorted and in range |
| `OlcNodes.LeafCutGet` | backend/btreeolc/btreeolc.hpp:540-565 | it binds every other key as before and the removed one no more |
| `OlcNodes.SplitOk` | backend/btreeolc/btreeolc.hpp:771-793 | both halves of a split are proper pages with fewer keys and ranges that meet at the separator |
| `OlcNodes.SplitLeavesKeys` | backend/btreeolc/btreeolc.hpp:1012-1035 | a full inner page leaves keys in both halves exactly for capacities of five or more |
| `OlcNodes.SplitLeafGet` | backend/btreeolc/btreeolc.hpp:771-793 | every key in range is bound in the half the separator sends it to exactly as in the whole |
| `OlcNodes.InnerPutAt` | backend/btreeolc/btreeolc.hpp:1042-1060 | a separator strictly inside slot i goes to slot i and the page stays proper |
| `OlcNodes.RouteCovers` | backend/btreeolc/btreeolc.hpp:983-1003 | the child that lower-bound search selects covers the key |
| `OlcPage.LeafPage.Insert` | backend/btreeolc/btreeolc.hpp:740-766 | in place on the key and value arrays: a new binding is put at its place in key order, a present key changes nothing |
| `OlcPage.LeafPage.ShiftUp` | backend/btreeolc/btreeolc.hpp:748-762 | the shifting loop moves the tail up by one and leaves the rest |
| `OlcPage.LeafPage.ShiftDown` | backend/btreeolc/btreeolc.hpp:555-565 | the slots behind the erased one move down by one and the rest stays |
| `OlcPage.LeafPage.Erase` | backend/btreeolc/btreeolc.hpp:540-565 | exactly the entry at the position disappears from both arrays |
| `OlcPage.LeafPage.CopyFrom` | backend/btreeolc/btreeolc.hpp:598-605 | the copying loop appends a section of another page, without overlap |
| `OlcPage.LeafPage.Split` | backend/btreeolc/btreeolc.hpp:771-798 | the pages hold the first half and the rest, in order; the separator is the last key kept; the new page is linked in between this one and its right neighbour |
| `OlcPage.LeafPage.Merge` | backend/btreeolc/btreeolc.hpp:598-610 | the page holds its own entries followed by the sibling's, and points to the sibling's right neighbour |
| `OlcPage.InsertIsLeafPut` | backend/btreeolc/btreeolc.hpp:740-766 | the in-place insert computes the same leaf as the one the interleaving proof uses |
| `OlcPage.EraseIsLeafCut` | backend/btreeolc/btreeolc.hpp:540-565 | so does the in-place erasure |
| `OlcErase.MergingTree.EraseMerge` | backend/btreeolc/btreeolc.hpp:2209-2451 | single-threaded, on every tree and path: it fails exactly if, told from slot counts and last leaves beforehand, an inner merge on the way up walks to an empty leaf; otherwise the in-order item sequence is unchanged, separators bound their subtrees and the forward leaf chain is in order; it says whether the leaf was merged or fed; then no leaf is empty if no other one was; from a capacity of four on, every inner node keeps a separator if each had one |
| `OlcErase.MergingTree.MergeAlong` | backend/btreeolc/btreeolc.hpp:2320-2451 | the same for the recursion towards the root, whose parents ask for merging in turn, only children included |
| `OlcErase.MergingTree.Step` | backend/btreeolc/btreeolc.hpp:2254-2433 | one level: the operation that ChoiceIs selects is applied, by slot counts one entry moves over or two siblings become one, and keeps order, bounds and chain, or the walk of an inner merge ends at an empty leaf |
| `OlcMerge.SurplusIs` | backend/btreeolc/btreeolc.hpp:614-617 | a node has a surplus iff it still fills two fifths of its page when it has given one entry away |
| `OlcMerge.SpaceIs` | backend/btreeolc/btreeolc.hpp:592-592 | a sibling has space for another one's entries iff both fit into one page, for leaves and inner nodes |
| `OlcErase.ChoiceIs` | backend/btreeolc/btreeolc.hpp:2254-2318 | which sibling is used, from slot counts: borrowing goes before merging, left before right, and a node is left alone iff no sibling has a surplus or space for its entries |
| `OlcErase.MergingTree.MergeSiblings` | backend/btreeolc/btreeolc.hpp:2368-2423 | merging two siblings gives one with the slots of both and keeps the others, items, bounds and the leaf chain although an inner merge uses the subtree maximum in place of the parent's separator; it fails exactly if that subtree's last leaf is empty |
| `OlcErase.MergingTree.BorrowOne` | backend/btreeolc/btreeolc.hpp:2393-2428 | exactly one slot moves over from the sibling with a surplus to the underfull one, all others staying; content and bounds are kept, and neither of two leaves is left empty |
| `OlcErase.Realloc` | backend/btreeolc/btreeolc.hpp:1388-1499 | moving one slot between siblings redistributes their joint slots and separator without changing their order |
| `OlcErase.MaxKeyWalk` | backend/btreeolc/btreeolc.hpp:2544-2590 | the walk down the last children finds the largest key of the last leaf, or that leaf empty, where the program's assert fails |
| `OlcErase.Bypass` | backend/btreeolc/btreeolc.hpp:598-610 | taking the right leaf out of the forward chain leaves the other leaves chained in order |
| `OlcErase.EmptyLeafServed` | backend/btreeolc/btreeolc.hpp:2254-2329 | an empty leaf finds no operation exactly if it is an only child |
| `OlcErase.OnlyChildBreaks` | backend/btreeolc/btreeolc.hpp:2320-2329 | at a tree with leaves of two entries beside an empty only child, capacities being three or more: repairing that leaf goes on with its parent and walks to that empty leaf |
| `OlcErase.LastLeafBreaks` | backend/btreeolc/btreeolc.hpp:2401-2423 | so it does after a merge below has made the empty leaf the last one of its node |
| `OlcErase.SparseBreaks` | backend/btreeolc/btreeolc.hpp:2209-2451 | if no other leaf is empty, a repair fails only for an empty leaf that is an only child |
| `OlcErase.KeyedNeverBreaks` | backend/btreeolc/btreeolc.hpp:2209-2451 | if moreover every inner node has a separator, no repair fails |
| `OlcErase.KeylessServed` | backend/btreeolc/btreeolc.hpp:2254-2329 | from a capacity of four on, an inner node without separators always finds a sibling to borrow from or merge with |
| `OlcSingle.Run` | backend/btreeolc/btreeolc.hpp:1528-2882 | from the empty tree on, for inner capacities of five or more: any sequence of insert attempts and removals by one thread, repairs included, meets no failing assert of a repair, keeps the tree invariant, a separator in every inner page and an entry in every leaf below another page, and leaves exactly the items that replaying the calls gives |
| `OlcSingle.Serve` | backend/btreeolc/btreeolc.hpp:1528-2882 | one call has exactly its effect on the map and says truthfully whether it changed anything |
| `OlcSingle.Remove` | backend/btreeolc/btreeolc.hpp:2746-2882 | from a capacity of four on: exactly the key is removed, and the repair of an underfull leaf never fails |
| `OlcSingle.RemoveAt` | backend/btreeolc/btreeolc.hpp:2798-2861 | the descent removes the key from the one leaf that can hold it and leads to that leaf; only this leaf may have become empty |
| `OlcSingle.TryInsert` | backend/btreeolc/btreeolc.hpp:1528-1677 | one attempt from the root either splits the first full inner page on its way and changes no item, or has inserted the item unless its key was there |
| `OlcSingle.InsertBelow` | backend/btreeolc/btreeolc.hpp:1547-1677 | the same below an inner page that is not full: key ranges, leaf chain, separators and filled leaves are kept |
| `OlcSingle.SplitPage` | backend/btreeolc/btreeolc.hpp:1551-1655 | a full page becomes two around a separator; a leaf takes the item along, in the half it belongs to, and the new leaf joins the chain |
| `OlcMerge.Shrink` | backend/btreeolc/btreeolc.hpp:2544-2590 | a subtree whose last leaf is not empty stays within bounds when its upper bound is lowered to the largest key there, which is why that key can serve as separator |
| `OlcMerge.Widen` | backend/btreeolc/btreeolc.hpp:913-937 | a subtree stays within bounds when the lower one is lowered, as an inner merge does to its right part |
| `OlcMerge.JoinRanged` | backend/btreeolc/btreeolc.hpp:909-937 | joining two siblings around a separator between them keeps all keys in bounds |
| `OlcMerge.SpreadRanged` | backend/btreeolc/btreeolc.hpp:1388-1499 | dividing two siblings anew at any place gives a separator between them and keeps all keys in bounds |
| `OlcMerge.MergeKidsRanged` | backend/btreeolc/btreeolc.hpp:2401-2417 | a parent whose children were merged has its keys and subtrees in bounds |
| `OlcMerge.SpreadKidsRanged` | backend/btreeolc/btreeolc.hpp:1388-1499 | a parent whose children were divided anew has its keys and subtrees in bounds |
| `OlcMerge.MergeKidsContent` | backend/btreeolc/btreeolc.hpp:598-610 | merging children keeps the items; of the leaf identities only the right leaf's disappears |
| `MigrationProof.ReadIsLatest` | backend/lsmt/bidirectional_migration_rocksdb_adapter.hpp:127-200 | in every run of lookups, updates, puts, memtable switches and flushes, over keys that may share lock words, in which no put overtakes anybody: reading any key yields the payload last put or updated, and no key is lost by a flush |
| `MigrationProof.LookupIsLatest` | backend/lsmt/bidirectional_migration_rocksdb_adapter.hpp:275-380 | a lookup that returns a payload returns the one last written when its guard validated |
| `MigrationProof.LookupReturnsSeen` | backend/lsmt/bidirectional_migration_rocksdb_adapter.hpp:275-380 | every finished lookup, with or without a payload, returns what was last written to its key at the step in which it read the store |
| `MigrationProof.UpdateHasWritten` | backend/lsmt/bidirectional_migration_rocksdb_adapter.hpp:386-408 | an update past its put has written in a step that makes reads of its key give its payload and leaves those of all other keys alone |
| `MigrationProof.WritesOnce` | backend/lsmt/bidirectional_migration_rocksdb_adapter.hpp:386-408 | an update has written once iff it is past its put, and never more; a lookup never writes for its caller |
| `MigrationProof.PayloadsChange` | backend/lsmt/bidirectional_migration_rocksdb_adapter.hpp:127-424 | what reads return, for any key, changes in no step but the writing step of an update and a put, and only for its key |
| `MigrationLive.FinishesAlone` | backend/lsmt/bidirectional_migration_rocksdb_adapter.hpp:275-408 | whatever it has got to, a lookup or update whose lock word nobody else holds finishes if left alone |
| `MigrationLive.WaitsForWord` | backend/LockManager/LockManager.hpp:89-148 | while its word is locked, a lookup or update that asks for it waits where it is |
| `MigrationLive.CanMigrate` | backend/lsmt/bidirectional_migration_rocksdb_adapter.hpp:313-345 | a lookup with a valid version can put its record on top, marked as migrated, moving its word on by two, and return it |
| `MigrationLive.FlushFinishes` | backend/lsmt/bidirectional_migration_rocksdb_adapter.hpp:135-200 | a flush left alone finishes, whatever it has got to |
| `MigrationLive.FlushCanStart` | backend/lsmt/bidirectional_migration_rocksdb_adapter.hpp:137-153 | any number of switched-out memtables, up to all of them, can be flushed at once |
| `MigrationLive.MovesUpIff` | backend/lsmt/bidirectional_migration_rocksdb_adapter.hpp:155-190 | a flush moves a record up exactly if it is migrated and referenced, the throttle admits it and its word has not moved since the copy; otherwise it goes down as it is |
| `MigrationLive.RefusedGoesDown` | backend/lsmt/bidirectional_migration_rocksdb_adapter.hpp:172-185 | a record that the store refused to take back goes down as migrated and unreferenced |
| `MigrationLive.MarkedIffMigrated` | backend/lsmt/bidirectional_migration_rocksdb_adapter.hpp:410-424 | a record comes to lie on top unreferenced, and marked as migrated exactly if a lookup or a flush put it there |
| `MigrationProof.RefusedUpgradeStartsOver` | backend/lsmt/bidirectional_migration_rocksdb_adapter.hpp:275-380 | a lookup refused its upgrade to a write lock never passes the validation that follows: it retries |
| `MigrationProof.FlushRePutsLatest` | backend/lsmt/bidirectional_migration_rocksdb_adapter.hpp:135-194 | what a flush puts back on top is always already the latest payload, never an old one over a newer one |
| `MigrationProof.WordsExclusive` | backend/LockManager/LockManager.hpp:89-148 | two guards never hold the same lock word, flush included, and a held word is odd |
| `MigrationProof.NextInv` | backend/lsmt/bidirectional_migration_rocksdb_adapter.hpp:275-424 | every step of lookup, update, switch and flush, and every put that overtakes nobody, keeps the invariant tying memtables, snapshots, words and threads together |
| `MigrationProof.PutKeepsInvIff` | backend/lsmt/bidirectional_migration_rocksdb_adapter.hpp:422-424 | a put, which takes no lock, keeps it exactly if no memtable copy with an unmoved lock word, no running flush and no lookup carries another payload that it may still put back or return |
| `MigrationProof.FirstPutIsSettled` | backend/lsmt/bidirectional_migration_rocksdb_adapter.hpp:422-424 | a key without a record can always be put |
| `MigrationPut.PutOvertaken` | backend/lsmt/bidirectional_migration_rocksdb_adapter.hpp:135-194 | a run from the start: a record is put and migrated, its memtable switched out, the key put again, and the flush puts the older payload over the newer one |
| `MigrationPut.PutIsSafeIff` | backend/lsmt/bidirectional_migration_rocksdb_adapter.hpp:135-424 | while no flush runs and no lookup of the key is past its own put: whatever orderly steps follow a put, reads are current, exactly if it overtakes nobody |
| `MigrationPut.FlushOvertakes` | backend/lsmt/bidirectional_migration_rocksdb_adapter.hpp:135-194 | wherever a migrated record waits in a memtable copied with an unmoved lock word, a flush can put it over a newer payload |
| `MigrationPut.LookupOvertakes` | backend/lsmt/bidirectional_migration_rocksdb_adapter.hpp:275-380 | so can a lookup that has read the older payload |
| `TwoTreeProof.TreesAgree` | backend/twotree/ConcurrentPartitionedBTree.hpp:167-245 | in every inclusive run, and in every exclusive run in which no evictor inserts a key into the cold tree between a lookup's fill and its removal of the cold copy: the inflight token of a key has an owner iff it is set, and one owner only; a settled hot entry is the payload last written; inclusive and unmodified it equals the cold copy; exclusive, there is no cold copy unless a lookup is about to remove it; a key that is not hot has its last payload in the cold tree, or was never written |
| `TwoTreeProof.InclusiveIsCalm` | backend/twotree/ConcurrentPartitionedBTree.hpp:405-411 | inclusive runs have no such gap |
| `TwoTreeProof.LookupIsLatest` | backend/twotree/ConcurrentPartitionedBTree.hpp:337-428 | in those runs a lookup settles on the payload last written to its key at that step, or on nothing iff never written, and returns it |
| `TwoTreeProof.UpdateReplacesLatest` | backend/twotree/ConcurrentPartitionedBTree.hpp:488-518 | a finishing update replaces the payload last written, in a settled hot entry, by its own |
| `TwoTreeAnswers.UpdateHasWritten` | backend/twotree/ConcurrentPartitionedBTree.hpp:488-518 | an update that is over has in exactly one step, its last, made its payload the hot and last written one of its key and touched no other key, no cold copy and no other thread |
| `TwoTreeAnswers.LookupDoes` | backend/twotree/ConcurrentPartitionedBTree.hpp:337-518 | no step of a lookup ends an update or writes, also where an update makes it; it touches its own key and thread only |
| `TwoTreeAnswers.LatestChanges` | backend/twotree/ConcurrentPartitionedBTree.hpp:488-518 | what was last written to a key changes only when an update is over, and with an insert |
| `TwoTreeAnswers.LookupReturnsLatest` | backend/twotree/ConcurrentPartitionedBTree.hpp:337-428 | in calm runs every finished lookup returns what was last written to its key, or that nothing was, at one of its own steps |
| `TwoTreeAnswers.MigratesIfWanted` | backend/twotree/ConcurrentPartitionedBTree.hpp:386-428 | a lookup that read the cold tree leaves its key in the hot tree exactly if it found it and was to migrate it |
| `TwoTreeAnswers.DirtyByWrites` | backend/twotree/ConcurrentPartitionedBTree.hpp:386-518 | an entry becomes dirty only by an update of its key, or by an insert in inclusive mode |
| `TwoTreeAnswers.SecondChance` | backend/twotree/ConcurrentPartitionedBTree.hpp:167-215 | an entry that stays in the hot tree stops being referenced only when the clock passes it |
| `TwoTreeAnswers.TakesUnreferenced` | backend/twotree/ConcurrentPartitionedBTree.hpp:167-215 | an evictor takes only settled and unreferenced entries |
| `TwoTreeAnswers.UseReferences` | backend/twotree/ConcurrentPartitionedBTree.hpp:337-518 | whoever is served from the hot tree, installs or fills an entry there, or writes to it leaves it referenced |
| `TwoTreeLive.FinishesAlone` | backend/twotree/ConcurrentPartitionedBTree.hpp:337-518 | a lookup whose key nobody else moves finishes if left alone, and so does an update of a key that has been written |
| `TwoTreeLive.AbsentNeverDone` | backend/twotree/ConcurrentPartitionedBTree.hpp:488-518 | an update of a key that was never written is never over |
| `TwoTreeLive.EvictsAlone` | backend/twotree/ConcurrentPartitionedBTree.hpp:205-234 | an evictor left alone takes every key on its list out of the hot tree |
| `TwoTreeProof.ExclusiveInBoth` | backend/twotree/ConcurrentPartitionedBTree.hpp:337-428 | exclusive mode: a key is in both trees only while its hot entry is inflight or in the gap |
| `TwoTreeProof.EvictionAsserts` | backend/twotree/ConcurrentPartitionedBTree.hpp:216-234 | in those runs the hot removal of an eviction finds its key, and an evictor about to insert into the cold tree will meet a duplicate exactly if a lookup stands in the gap for the key |
| `TwoTreeProof.PlaceholderAsserts` | backend/twotree/ConcurrentPartitionedBTree.hpp:293-318 | a lookup finds its placeholder in the hot tree, inflight, and the copy it is to remove in the cold tree |
| `TwoTreeProof.NextInv` | backend/twotree/ConcurrentPartitionedBTree.hpp:167-518 | every step but a cold insert of a key in the gap keeps token ownership and the agreement of both trees with the written payloads |
| `TwoTreeGap.GapMeetsDuplicate` | backend/twotree/ConcurrentPartitionedBTree.hpp:405-409 | a run of exclusive mode in which an evictor is about to insert a key the cold tree already holds |
| `TwoTreeGap.GapLosesKey` | backend/twotree/ConcurrentPartitionedBTree.hpp:405-409 | carried on, it loses a written key from both trees |
| `TwoTreeGap.CalmNeverLosesKey` | backend/twotree/ConcurrentPartitionedBTree.hpp:372-474 | no run in which no evictor inserts a key in the gap loses a key or has a cold insert refused; an insert that is next will be refused exactly if its key is in the gap |
| `TwoTreeGap.LosesIffGapInsert` | backend/twotree/ConcurrentPartitionedBTree.hpp:205-428 | for every run without such an insert before its last step: it can go on to lose a key, by further steps that are no such inserts, exactly if its last step is one |
| `TwoTreeGap.GapInsertLoses` | backend/twotree/ConcurrentPartitionedBTree.hpp:216-234 | after an insert in the gap, the hot removal that follows it and the cold removal of the lookup lose the key |
| `TwoTreeGap.AllSafeIffInclusive` | backend/twotree/ConcurrentPartitionedBTree.hpp:167-518 | all runs of a mode are free of both exactly if it is the inclusive one |
| `EbrProof.FreeIsSafe` | backend/btreeolc/EBR.hpp:119-141 | every shared access being a step of its own, in every run in which each store of a loaded epoch comes in time: no node is freed while a thread that was in its critical region when the node was retired is still in that same region, orphaned and adopted nodes included |
| `EbrProof.GuardsAreStays` | backend/btreeolc/EBR.hpp:105-107 | the regions recorded with a retired node are exactly those under way at that moment |
| `EbrProof.WithinOneEpoch` | backend/btreeolc/EBR.hpp:119-182 | in those runs a thread past its store is at most one epoch behind the global one, so three epoch numbers tell the cases apart |
| `EbrProof.NextInv` | backend/btreeolc/EBR.hpp:119-199 | every step (flag, load and store of an entry, both loads of a scan, compare-and-swap, lost race, adoption, publication, freeing, retirement, exit) but a store that comes too late keeps the invariant on ages of nodes, blocks and orphans |
| `EbrProof.AbandonInv` | backend/btreeolc/EBR.hpp:59-79 | an exiting thread's nodes, left for the epoch before the global one it loaded earlier, stay protected until adopted and freed |
| `EbrProof.AdvanceInv` | backend/btreeolc/EBR.hpp:160-182 | a compare-and-swap that advances the epoch is harmless although the scan before it was not atomic and blocks may be between their load and their store of the epoch |
| `EbrHeld.InOnePlace` | backend/btreeolc/EBR.hpp:59-199 | in every run, late stores included: a retired node is in exactly one retire list or orphan, unless it is retired again while it is |
| `EbrHeld.HeldUntilFreed` | backend/btreeolc/EBR.hpp:105-199 | from its retirement on a node stays in such a place until it is freed |
| `EbrHeld.FreedIsGone` | backend/btreeolc/EBR.hpp:139-145 | a freed node is in no such place any more |
| `EbrHeld.HeldChanges` | backend/btreeolc/EBR.hpp:105-199 | a node gets into such a place only by being retired, and out of all of them only by being freed |
| `EbrLive.EntersAlone` | backend/btreeolc/EBR.hpp:119-182 | in every run, whatever it has got to: a thread on its way in gets in if left alone; scanning and freeing come to an end |
| `EbrLive.ScanNearer` | backend/btreeolc/EBR.hpp:160-170 | a scan looks at every block that was there when it began at most once, and at no other |
| `EbrLive.FreesAll` | backend/btreeolc/EBR.hpp:139-145 | a thread that has observed a new epoch has freed the whole list of that epoch when it is in |
| `EbrLive.NestedLeave` | backend/btreeolc/EBR.hpp:96-103 | leaving undoes a nested entry, so a region ends with the leave of its outermost one |
| `EbrLive.EndsAlone` | backend/btreeolc/EBR.hpp:59-79 | a thread that ends gives its block back with empty lists, all its nodes being orphans |
| `EbrLive.AcquiredOnce` | backend/btreeolc/EBR.hpp:40-50 | two threads get the same control block only if it was given back in between |
| `EbrProof.StoreKeepsInvIff` | backend/btreeolc/EBR.hpp:125-140 | a store of a loaded epoch keeps the invariant exactly if that is still the global epoch, or the one before it while no scan or compare-and-swap of the global one has passed the block |
| `EbrLate.LateStoreFrees` | backend/btreeolc/EBR.hpp:122-140 | a run from the start: two advances come between a load and its store, the thread then stands two epochs behind, and a node is freed under its stay |
| `EbrLate.LateStoreHarms` | backend/btreeolc/EBR.hpp:122-140 | in every state of the invariant in which no other thread is on its way in, after a store that is two epochs late timely steps lead to such a free |
| `EbrLate.StoreIsSafeIff` | backend/btreeolc/EBR.hpp:119-199 | in those states no sequence of timely steps frees a node under a stay that saw it retired exactly if the store is less than two epochs late |
| `EbrLate.BehindHarms` | backend/btreeolc/EBR.hpp:59-199 | a thread two epochs behind does not stop two more advances, which free a node that another thread retired and left to the orphans meanwhile |
| `LockWords.FieldCountsReaders` | backend/LockManager/LockManager.hpp:163-241 | in every interleaving of loads and compare-and-swaps with at most 255 readers, the reader byte counts the read-locked guards, the version is odd iff some guard writes, and a writer is alone |
| `LockWords.UpgradeBySoleReader` | backend/LockManager/LockManager.hpp:206-216 | an upgrade succeeds only for the one reader there is, which then writes alone |
| `LockWords.UnlockAsserts` | backend/LockManager/LockManager.hpp:191-241 | both unlocks find the word they assert, and the write unlock never loses its compare-and-swap, so its assert(false) is unreachable |
| `LockWords.GetsAlone` | backend/LockManager/LockManager.hpp:163-241 | a load and a compare-and-swap that nobody comes between get a read lock, a write lock, an upgrade or a release whenever the word admits it; readers are counted and writers make the version odd and even again |
| `LockWords.RefusedAlone` | backend/LockManager/LockManager.hpp:163-216 | a load that sees a writer, or other readers where a writer is to be, leads to no attempt |
| `LockWords.ReadLockKeepsCountIff` | backend/LockManager/LockManager.hpp:218-227 | the bound is exact: one more read lock leaves the byte counting the readers iff fewer than 255 held it |
| `LockWords.Packs` | backend/LockManager/LockManager.hpp:168-178 | packing and unpacking preserves the reader count modulo one byte, the version modulo 16 bits and its parity |
| `StxTree.BTree.EraseOne` | backend/stx/btree.h:2603-2622 | the content loses exactly the given key, the result says whether it was there, and the whole tree invariant is kept |
| `StxTree.BTree.EraseDescend` | backend/stx/btree.h:2680-2952 | erasing below a node: found iff present, content less the key, a new largest key is handed up iff needed, and the fix asked of the parent is the decision table's |
| `StxTree.BTree.EraseInChild` | backend/stx/btree.h:2848-2889 | after the child's erase and repair, the node is sound but for its own underflow and its separators are exact again |
| `StxTree.BTree.Rebalance` | backend/stx/btree.h:2735-2800 | carrying out the asked fix restores half-fullness of the child and keeps content, leaf chain and counts |
| `StxTree.BTree.Merge` | backend/stx/btree.h:3269-3339 | merging an underfull child with a few-slot sibling fits, removes one separator and unlinks the emptied leaf |
| `StxTree.BTree.Even` | backend/stx/btree.h:3344-3554 | shifting between an underfull child and a richer sibling leaves both at least half full with an exact separator |
| `StxTree.BTree.ShrinkRoot` | backend/stx/btree.h:2735-2905 | an emptied leaf root is dropped and an inner root left with one child is replaced by it, with the content kept |
| `StxErase.DecideIsSafe` | backend/stx/btree.h:2735-2822 | the six-way decision always picks a sibling under the same parent with room to merge or slots to spare, although the left cousin at line 2816 is looked up one slot short |
| `StxErase.DecideIsRule` | backend/stx/btree.h:2735-2822 | the six cases come to one rule that looks at siblings only: merge with one that has few slots, the left one first, else take from the one with more, the right one if equal |
| `StxErase.LeafErased` | backend/stx/btree.h:2692-2733 | removing the slot found removes exactly the key, and reports a new largest key iff the last slot went |
| `StxErase.ChildErased` | backend/stx/btree.h:2848-2862 | replacing the erased child and the separator handed up leaves an inner node that is sound but for that child's fill |
| `StxErase.ShiftLeft` | backend/stx/btree.h:3344-3444 | half of the difference moves from right to left through the separator, order unchanged |
| `StxErase.ShiftRight` | backend/stx/btree.h:3446-3554 | half of the difference moves from left to right through the separator, order unchanged |
| `StxErase.EvenIsFitting` | backend/stx/btree.h:3344-3554 | after shifting, both siblings are within half-full and full |
| `StxErase.JoinIsFitting` | backend/stx/btree.h:3269-3339 | an underfull node and one with few slots fit into one node that is at least half full |
| `StxSteps.JoinBuilt` | backend/stx/btree.h:3269-3339 | joining siblings gives a node of both contents whose separators are the exact maxima |
| `StxSteps.SpreadBuilt` | backend/stx/btree.h:3344-3554 | dividing two siblings anew at any place gives siblings with an exact separator and the right slot counts |
| `StxSteps.JoinAtBuilt` | backend/stx/btree.h:3299-3339 | the parent of joined children is built as required, one slot fewer |
| `StxSteps.SpreadAtBuilt` | backend/stx/btree.h:3390-3554 | the parent of children divided anew is built as required, same content |
| `StxSteps.Route` | backend/stx/btree.h:1643-1683 | the slot found by search splits the content around the child in which the key belongs |
| `StxTree.BTree.Insert` | backend/stx/btree.h:2152-2189 | the content gains exactly the new item, or stays the same and the insert reports the key present; the whole tree invariant is kept |
| `StxTree.BTree.InsertDescend` | backend/stx/btree.h:2198-2328 | inserting below a node: inserted iff absent; the node, with its twin if it split, has the content with the item added and both are at least half full |
| `StxTree.BTree.InsertIntoLeaf` | backend/stx/btree.h:2284-2327 | the leaf case: the item lands in its place in the right half when the leaf was full |
| `StxTree.BTree.AddChild` | backend/stx/btree.h:2216-2280 | taking in a split child, splitting in turn when full, keeps separators exact, also when the new separator becomes the split key |
| `StxTree.BTree.InsertStart` | backend/stx/btree.h:2152-2189 | the root case, with a new root on top when the old one split |
| `StxTree.BTree.GrowRoot` | backend/stx/btree.h:2163-2177 | the new root over both halves has the content with the item added |
| `StxTree.BTree.SplitLeaf` | backend/stx/btree.h:2332-2364 | a full leaf splits into halves, the new one chained right after it |
| `StxTree.SplitInner` | backend/stx/btree.h:2370-2400 | splitting around a child to be added equals adding it first and cutting after, at a place leaving both halves at least half full |
| `StxTree.SplitPoint` | backend/stx/btree.h:2374-2381 | once the new child is in, both halves have half of the separators, and if that is uneven the half that took the child has one more |
| `StxSteps.AddKidShape` | backend/stx/btree.h:2269-2280 | a node that takes in a twin next to a child stays built, with exact separators |
| `StxSteps.CutShape` | backend/stx/btree.h:2370-2400 | cutting an inner node at a key gives two built nodes, the key being the left one's maximum |
| `StxTree.BTree.BulkLoad` | backend/stx/btree.h:2408-2535 | from any strictly ascending sequence: the content is that sequence and the whole invariant holds, all non-root nodes at least half full |
| `StxTree.BTree.LoadLeaves` | backend/stx/btree.h:2414-2444 | the leaves hold the sequence in order, chained, at least half full if more than one, with their true maxima |
| `StxBulk.BuildLevel` | backend/stx/btree.h:2454-2529 | one level up: all children in order under fewer parents, each at least half full if more than one, with exact separators |
| `StxBulk.EvenShare` | backend/stx/btree.h:2428-2441 | taking a quotient share off what is left keeps all later shares within the same bounds |
| `StxBulk.Shares` | backend/stx/btree.h:2416-2428 | with as few nodes as capacity allows, every share is between half and full |
| `StxTree.BTree.Find` | backend/stx/btree.h:1786-1806 | found iff the content has the key, with its value |
| `StxTree.FindLowerKey` | backend/stx/btree.h:1643-1683 | the first separator that is not less |
| `StxTree.FindLowerItem` | backend/stx/btree.h:1643-1683 | the place of the key among ascending items |
| `StxTree.BTree.constructor` | backend/stx/btree.h:1323-1327 | an empty tree meets the invariant |
| `StxNodes.InsertedIs` | backend/stx/btree.h:2281-2327 | what "inserted" means: ascending, one longer, the same items and the new one |
| `StxNodes.WithoutIs` | backend/stx/btree.h:2603-2622 | what "erased" means: ascending, the same items but those with the key |
| `StxVerify.WalkIff` | backend/stx/btree.h:3655-3740 | the self-check walk accepts a root iff shape, fill and separators are exact, its items do not descend (equal keys pass) and the leaf links it looks at are in place |
| `StxVerify.OrderedIsSound` | backend/stx/btree.h:3655-3740 | without equal keys, shape, fill and order are exactly the invariant that the operations keep |
| `StxVerify.WalkAcceptsEqualKeys` | backend/stx/btree.h:3667-3670 | at a leaf with the keys 5 and 5 the walk accepts what that invariant excludes |
| `StxVerify.VerifyNode` | backend/stx/btree.h:3655-3740 | the recursive walk accepts exactly this, returns the smallest and largest key and adds items, leaves and inner nodes to the statistics |
| `StxVerify.VerifyLeafLinks` | backend/stx/btree.h:3742-3779 | on any list whose links stay among the leaves, broken ones included: the walk from the head ends, and accepts exactly if some leaves are linked in this order both ways from head to tail, each holds keys, the keys do not descend and are as many as recorded |
| `StxVerify.TreeAccepted` | backend/stx/btree.h:3742-3779 | the leaves of a tree that the operations produce are accepted, in the order of the tree |
| `StxVerify.VerifyParts` | backend/stx/btree.h:3637-3652 | the whole self-check, on any root, links among the leaves and recorded counts, broken ones included: it passes iff the walk accepts the root, the three counts are the recorded ones and the leaf links are accepted |
| `StxVerify.Verify` | backend/stx/btree.h:3637-3652 | every tree the operations produce passes the whole self-check: walk, three statistics and leaf links |
| `StxLeafList.InsertAfterOk` | backend/stx/btree.h:2344-2360 | linking the new leaf in keeps the doubly linked list equal to the leaf order |
| `StxLeafList.RemoveAfterOk` | backend/stx/btree.h:3286-3292 | unlinking the emptied leaf keeps the doubly linked list equal to the leaf order |
| `StxLeafList.AppendOk` | backend/stx/btree.h:2432-2439 | appending a leaf in bulk loading keeps the doubly linked list equal to the leaf order |
| `AntiCache.Store.Lookup` | backend/anti-caching/AntiCache.hpp:232-251 | over cache and eviction blocks together the map is unchanged, and the lookup finds exactly what the map binds, whatever eviction happens meanwhile; a found key is first in the recency order afterwards if its use is sampled or it had been evicted, and a cached key keeps its place if not |
| `AntiCache.Store.Update` | backend/anti-caching/AntiCache.hpp:262-282 | the map changes at the key only, wherever the tuple was; the key is first in the recency order afterwards, unless it was cached and its use is not sampled: then it keeps its place |
| `AntiCache.Store.Insert` | backend/anti-caching/AntiCache.hpp:182-186 | an uncached key: the store stays valid exactly if the key is not evicted either, and then the map gains it; the key is first in the recency order and the others keep theirs, less those evicted from its end |
| `AntiCache.Store.Bring` | backend/anti-caching/AntiCache.hpp:188-230 | merging a whole block back, dropping it and evicting if under pressure leaves the map as it was; the wanted key comes first in the recency order, the rest of its block last |
| `AntiCache.Store.EvictBunch` | backend/anti-caching/AntiCache.hpp:127-162 | evicting a block full of least recently used tuples keeps the map, takes exactly them off the tail of the order and gets somewhere unless not one tuple fits; it stops when the cache is empty or no further tuple goes into the block; a block never exceeds its size, or, where the size closes it, exceeds it by its last tuple only |
| `AntiCache.Store.EvictLast` | backend/anti-caching/AntiCache.hpp:138-151 | one tuple: the last of the order moves into the open block at the recorded offset |
| `AntiCache.Store.EvictAll` | backend/anti-caching/AntiCache.hpp:121-125 | terminates with an empty cache and the same map |
| `AntiCache.Store.EvictRounds` | backend/anti-caching/AntiCache.hpp:164-168 | any number of eviction rounds keeps the map |
| `AntiCache.Store.Touch` | backend/anti-caching/AntiCache.hpp:41-63 | moves one key to the front or back of the recency order, all others keeping theirs |
| `AntiCache.Store.Admit` | backend/anti-caching/AntiCache.hpp:170-180 | a new cached key at the front or back of the recency order |
| `AntiCache.Store.constructor` | backend/anti-caching/AntiCache.hpp:70-95 | an empty store meets the invariant |
| `AntiCache.MovedOut` | backend/anti-caching/AntiCacheBTree.hpp:138-155 | moving a cached tuple to the end of a block with a tombstone for its offset keeps tombstones and block tuples in bijection and the map unchanged |
| `AntiCache.MovedBack` | backend/anti-caching/AntiCacheBTree.hpp:237-253 | moving the next tuple of a block back keeps both |
| `AntiCache.BlockDone` | backend/anti-caching/AntiCacheBTree.hpp:255-261 | dropping a block all of whose tuples are back keeps both |
| `AntiRing.RemoveOk` | backend/anti-caching/AntiCache.hpp:41-47 | taking a node out of the ring leaves the others linked in order both ways and the node free |
| `AntiRing.PushFrontOk` | backend/anti-caching/AntiCache.hpp:49-55 | a free node linked in at the head is first in the order both ways |
| `AntiRing.PushBackOk` | backend/anti-caching/AntiCache.hpp:57-63 | a free node linked in at the tail is last in the order both ways |
| `AntiScan.Scan` | backend/anti-caching/AntiCacheBTree.hpp:288-398 | the processor is called on the ascending union of hot and cold tuples from the start key, as far as its first refusal, whatever the sizes against the 32-entry buffers; if a full buffer ends with the largest key value and everything has been taken, it is called on the tuples of that side again from the first one on, once more if they do not fill their last buffer and else until it refuses |
| `AntiScan.BoundAfterIff` | backend/anti-caching/AntiCacheBTree.hpp:374-388 | continuing from the key after the last one read finds the next tuple exactly if that key was not the largest value, and starts over from the first tuple otherwise |
| `AntiScan.ScanFullBuffer` | backend/anti-caching/AntiCacheBTree.hpp:288-398 | with 32 tuples ending with the largest key value, a processor that wants 33 gets the first one twice |
| `AntiScan.HotWraps` | backend/anti-caching/AntiCacheBTree.hpp:374-388 | a side starts over only when both sides have delivered everything |
| `AntiScan.UnionFromStart` | backend/anti-caching/AntiCacheBTree.hpp:193-217 | that sequence is ascending and has exactly the keys from the start with their payloads in the store's map |
| `AntiScan.Fill` | backend/anti-caching/AntiCacheBTree.hpp:300-334 | a buffer holds the next tuples from a key on, and marks the end iff it is not full |
| `AntiScan.Refill` | backend/anti-caching/AntiCacheBTree.hpp:374-388 | an emptied buffer continues right after the last tuple read, without gap or repetition, and gets nearer the end; after the largest key value it starts with the first tuple of its side |
| `AntiScan.MergeBuffers` | backend/anti-caching/AntiCacheBTree.hpp:341-353 | merging runs until one buffer is empty and the calls so far are the merge so far |
| `AntiScan.DrainHot` | backend/anti-caching/AntiCacheBTree.hpp:355-362 | the rest of the hot side is delivered only once the cold side is at its end |
| `AntiScan.DrainCold` | backend/anti-caching/AntiCacheBTree.hpp:364-372 | the rest of the cold side is delivered only once the hot side is at its end |
| `AntiScan.MergeSorted` | backend/anti-caching/AntiCacheBTree.hpp:341-353 | merging ascending sequences without common keys is ascending |
| `AntiScan.MergeMembers` | backend/anti-caching/AntiCacheBTree.hpp:341-353 | merging loses and invents nothing |
| `ArtIndex.Art.Insert` | backend/ART/ART.cpp:308-385 | inserting an absent key adds exactly that entry in its place, keeps every layout well formed and counts the items |
| `ArtIndex.Art.Erase` | backend/ART/ART.cpp:482-520 | erasing removes exactly the key's entry or, if there is none, changes nothing |
| `ArtIndex.Art.Find` | backend/ART/ART.cpp:165-222 | both searches find a key iff it is stored, with its value |
| `ArtIndex.Art.constructor` | backend/ART/ART.cpp:772-784 | an empty tree meets the invariant |
| `ArtIndex.InsertAt` | backend/ART/ART.cpp:308-385 | insertion below any node: split a leaf, split a prefix, descend, or add a child; one entry more, all others in order |
| `ArtIndex.SplitLeaf` | backend/ART/ART.cpp:318-337 | a new inner node over the common prefix holds both leaves in key order |
| `ArtIndex.SplitPrefix` | backend/ART/ART.cpp:339-365 | a new inner node over the common part of a prefix holds the old node, prefix shortened, and the new leaf |
| `ArtIndex.EraseAt` | backend/ART/ART.cpp:482-520 | erasing below any node: the entry goes, nothing else changes |
| `ArtIndex.RemoveLeaf` | backend/ART/ART.cpp:506-515 | taking a leaf child out of a node, which may shrink or dissolve, removes exactly its entry |
| `ArtIndex.DissolvedOk` | backend/ART/ART.cpp:522-553 | a node left with one child is replaced by it with prefixes joined, entries unchanged |
| `ArtTree.Lookup` | backend/ART/ART.cpp:165-201 | the search that may skip checking prefixes answers as the set of entries does |
| `ArtTree.LookupPessimistic` | backend/ART/ART.cpp:203-222 | the search that checks every prefix answers the same |
| `ArtTree.PrefixMismatch` | backend/ART/ART.cpp:109-127 | the first position at which key and prefix differ |
| `ArtTree.LeafMatches` | backend/ART/ART.cpp:97-107 | comparing from the depth reached decides equality of the whole keys |
| `ArtTree.RouteEntry` | backend/ART/ART.cpp:30-60 | an entry lies below the child its next key byte selects |
| `ArtSlots.InsertNode4` | backend/ART/ART.cpp:387-414 | the child of one byte is added, all others are as before; grows at four |
| `ArtSlots.InsertNode16` | backend/ART/ART.cpp:416-445 | likewise with sign-flipped sorted keys; grows at sixteen |
| `ArtSlots.InsertNode48` | backend/ART/ART.cpp:447-473 | likewise with the index table; grows at forty-eight |
| `ArtSlots.InsertNode256` | backend/ART/ART.cpp:475-479 | likewise with direct slots |
| `ArtSlots.InsertChild` | backend/ART/ART.cpp:376-385 | whatever the layout, the child is added and the node's count stays in the bounds of its layout |
| `ArtSlots.ReplacedOk` | backend/ART/ART.cpp:369-374 | writing back a child changes that child only |
| `ArtSlots.EraseNode4` | backend/ART/ART.cpp:522-553 | the child of one byte goes, all others stay; from two children the node dissolves into the other |
| `ArtSlots.EraseNode16` | backend/ART/ART.cpp:555-577 | likewise; shrinks when three are left |
| `ArtSlots.EraseNode48` | backend/ART/ART.cpp:579-603 | likewise; shrinks when twelve are left |
| `ArtSlots.EraseNode256` | backend/ART/ART.cpp:605-628 | likewise; shrinks when thirty-seven are left |
| `ArtSlots.EraseChild` | backend/ART/ART.cpp:506-515 | whatever the layout, the child goes and the node's count stays in the bounds of its layout, or the node dissolves |
| `ArtLayout.Grow4` | backend/ART/ART.cpp:399-412 | the 16-child form has the same children, its flipped keys sorted as signed bytes |
| `ArtLayout.Shrink16` | backend/ART/ART.cpp:562-576 | the 4-child form has the same children, its keys sorted as unsigned bytes |
| `ArtLayout.Grow16` | backend/ART/ART.cpp:429-444 | the 48-child form has the same children, one slot each |
| `ArtLayout.Grow48` | backend/ART/ART.cpp:457-472 | the 256-child form has the same children |
| `ArtLayout.Shrink48` | backend/ART/ART.cpp:585-602 | the 16-child form has the same children, its keys sorted |
| `ArtLayout.Shrink256` | backend/ART/ART.cpp:610-627 | the 48-child form has the same children, one slot each |
| `ArtLayout.FreeSlot` | backend/ART/ART.cpp:449-456 | a 48-child node that is not full has a free slot, so the search for one ends |
| `ArtNodes.CountIsBytes` | backend/ART/ART.cpp:30-60 | a node's count is the number of bytes with a child, in every layout |
| `ArtNodes.TagRoundTrip` | backend/ART/ART.hpp:106-119 | a tagged leaf is told from a node, and gives its value back iff that is below two to the sixty-third |
| `ArtIter.Iterate` | backend/ART/ART.cpp:870-1008 | iterating yields every entry once in order and then stops, except that a tree whose root is a leaf yields nothing |
| `ArtIter.IterateAll` | backend/ART/ART.cpp:870-1008 | over an index: all entries in order, unless it has exactly one item, when it yields nothing |
| `ArtIter.LeafRootIff` | backend/ART/ART.cpp:308-337 | the root is a leaf exactly if there is one item |
| `ArtIter.IterateOne` | backend/ART/ART.cpp:870-914 | an index with one entry, and the iteration that misses it |
| `ArtIter.Iter.Begin` | backend/ART/ART.cpp:870-914 | after begin, all entries are pending (none if the root is a leaf) |
| `ArtIter.Iter.Next` | backend/ART/ART.cpp:996-1008 | each step delivers the first pending entry, and reports the end iff none is pending |
| `ArtIter.MinimumRecordPath` | backend/ART/ART.cpp:875-914 | descending to the smallest leaf puts exactly that subtree's entries before what was pending |
| `ArtIter.NextSlot` | backend/ART/ART.cpp:916-958 | backing up and advancing reaches the next child with nothing skipped, or the end with nothing left |
| `ArtOrder.EntriesInOrder` | backend/ART/ART.cpp:875-958 | the entries of a tree are in strictly ascending byte order of their keys |
| `ArtOrder.LessIsNumeric` | backend/ART/ARTIndex.hpp:35-66 | byte order of big-endian keys is numeric order |
| `ArtOrder.AscendingNumbers` | backend/ART/ARTIndex.hpp:35-66 | so entries come in strictly ascending order of the integer keys |
| `Crc.TableIsBitwise` | shared-headers/CRC.hpp:718-766 | for every data, width, polynomial and reflection setting, table look-up and bitwise division agree on the bits of the CRC, hence after finalizing |
| `Crc.ReflectedStep` | shared-headers/CRC.hpp:722-738 | reflected input: one look-up is eight division steps, on all bits |
| `Crc.WideStep` | shared-headers/CRC.hpp:739-748 | unreflected, at least a byte wide: the same, on the bits of the CRC |
| `Crc.NarrowStep` | shared-headers/CRC.hpp:749-763 | unreflected, narrower than a byte: the same, on the byte the remainder is kept in |
| `Crc.Linear` | shared-headers/CRC.hpp:601-705 | division steps are linear over exclusive-or |
| `Crc.OnlyShifted` | shared-headers/CRC.hpp:601-705 | bits that do not reach the tested end in k steps are only shifted |
| `CrcParts.PartsMakeWholeIff` | shared-headers/CRC.hpp:434-588 | feeding any data in any number of parts gives the CRC of the whole, iff for reflected input the bits of initial value and final exclusive-or above the width leave no trace in the register |
| `CrcParts.TwoPartsIff` | shared-headers/CRC.hpp:434-463 | the same for two parts |
| `CrcParts.TracelessIsFitting` | shared-headers/CRC.hpp:574-588 | parameters without bits above the width leave no trace, and for a CRC of a byte or more only those |
| `CrcParts.PartsMakeWhole` | shared-headers/CRC.hpp:454-463 | under that condition every split of every data into two parts works |
| `CrcParts.AllPartsMakeWhole` | shared-headers/CRC.hpp:454-463 | and every split into any number of parts |
| `CrcParts.PartsFail` | shared-headers/CRC.hpp:454-463 | an 8-bit reflected CRC in 16 bits, initial value with bit 8 set, whatever its polynomial: empty first part, one zero byte as second, and the parts miss the whole |
| `CrcParts.PartsAgreeIff` | shared-headers/CRC.hpp:434-463 | two parts agree iff the error made by undoing the final step does not show after the second part |
| `CrcParts.HighMoves` | shared-headers/CRC.hpp:617-639 | reflected, the bits above the width only move down, eight positions a byte |
| `CrcParts.RemainderAppend` | shared-headers/CRC.hpp:601-705 | remainders compose over concatenated data |
| `CrcParts.HighBitsIrrelevant` | shared-headers/CRC.hpp:640-702 | unreflected, the bits of the CRC do not depend on those above |
| `CrcParts.UndoRestores` | shared-headers/CRC.hpp:574-588 | undoing the final step restores the bits of the CRC and, above, puts what the final exclusive-or holds there; its documentation promises the original remainder |
| `CrcParts.FinalizeRestores` | shared-headers/CRC.hpp:542-554 | finalizing what was undone gives back every CRC of the width |
| `CrcBits.Reflect` | shared-headers/CRC.hpp:519-530 | the shifting loop computes the bits in reverse order |
| `CrcBits.ReversedTwice` | shared-headers/CRC.hpp:519-530 | reflecting twice gives the low bits back |
| `CrcPoly.RemainderIs` | shared-headers/CRC.hpp:601-705 | for all parameters, and initial values within the width where the input is reflected: the remainder, as a polynomial over two elements of degree below the width, is congruent to the message times x to the width plus the initial value times x to the message length, modulo the generator |
| `CrcPoly.RemainderIsUnique` | shared-headers/CRC.hpp:601-705 | it is the only polynomial of degree below the width that is |
| `CrcPoly.RegisterIsUnique` | shared-headers/CRC.hpp:601-705 | for all initial values, bits above the width included: the whole register is the only polynomial below the degree of the generator in its place that is congruent to the message plus the initial register, each times its power of x |
| `CrcPoly.ByteStepIs` | shared-headers/CRC.hpp:601-705 | eight division steps multiply the register by x to the eighth and take in a byte above the width, in all three shapes of the loop |
| `CrcPoly.BitStepIs` | shared-headers/CRC.hpp:625-637 | one division step multiplies by x modulo the generator |
| `CrcEngine.DivideBits` | shared-headers/CRC.hpp:601-705 | the bitwise loops compute the remainder that CrcPoly.RemainderIs is about |
| `CrcEngine.Table.constructor` | shared-headers/CRC.hpp:390-422 | the table holds for every byte the remainder of that byte |
| `CrcEngine.Table.DivideBytes` | shared-headers/CRC.hpp:718-766 | the look-up loops compute the bitwise remainder on the bits of the CRC |
| `CrcEngine.Table.Calculate` | shared-headers/CRC.hpp:475-484 | the table-driven CRC is the bitwise one, whose bits CrcIs gives |
| `CrcEngine.Table.CalculateMore` | shared-headers/CRC.hpp:498-509 | the same when continuing from a CRC, which MoreIs and PartsMakeWholeIff are about |
| `CrcEngine.Calculate` | shared-headers/CRC.hpp:434-441 | the bitwise CRC: CrcIs gives its bits for all parameters; Crc32IsGzip, Crc24IsPgp and Crc12IsUmts tie it to standards |
| `CrcEngine.CalculateMore` | shared-headers/CRC.hpp:454-463 | continuing from a CRC, which MoreIs and PartsMakeWholeIff are about |
| `CrcOutput.CrcIs` | shared-headers/CRC.hpp:434-441 | for all four settings of the reflections: before the final exclusive-or, bit i of the CRC is the coefficient of x to the i, or, reflected, of x to the width minus one minus i, of the only polynomial below the width that is congruent to message and initial value modulo the generator |
| `CrcOutput.CrcOfRegister` | shared-headers/CRC.hpp:434-441 | the same for all initial values, bits above the width included, in terms of the whole register |
| `CrcOutput.MoreIs` | shared-headers/CRC.hpp:454-463 | continuing from a CRC that spells a polynomial in this way gives the CRC of the new data with that polynomial in front, where a reflected final exclusive-or keeps to the width |
| `CrcOutput.UndoTakesBack` | shared-headers/CRC.hpp:574-588 | undoing the final step reads a CRC as the polynomial that it spells, for all parameters |
| `CrcOutput.ReflectOutReverses` | shared-headers/CRC.hpp:542-554 | without a final exclusive-or, the other setting of the output reflection gives the CRC in reverse |
| `CrcStandards.Crc32IsGzip` | shared-headers/CRC.hpp:1565-1569 | CRC_32 is the CRC of section 8 of RFC 1952, written independently from it, on all data |
| `CrcStandards.Crc24IsPgp` | shared-headers/CRC.hpp:1492-1496 | CRC_24 is the CRC of section 6.1 of RFC 4880, written independently from it, on all data |
| `CrcStandards.Crc12IsUmts` | shared-headers/CRC.hpp:1089-1093 | CRC_12_UMTS, whose output is reflected and whose input is not, holds the parity bits of section 4.2.1 of 3GPP TS 25.212, written independently as a feedback register, from its lowest bit on |

## Left out

Not modelled at all:

- Weak memory: all shared accesses are sequentially consistent, including those marked relaxed.
- Wrap-around of 64-bit versions, block counters and item counts: they are unbounded, except the lock words of LockWords.
- RocksDB, LeanStore's own B-tree and buffer manager, Treeline and LZ4: abstract maps and queues stand for them.
- Lock-coupling runs that contain merges: an inner merge takes its separator from a walk over unlocked nodes. A removal ends with its write to the leaf.
- Back links, iterators and scans of the lock-coupling B+tree, and its pessimistic page locks.
- STX: duplicate keys, iterators, range and upper-bound searches, erase by iterator, copying, dump and restore. The compressed variant is a near copy.
- Radix tree: keys longer than 8 bytes (then prefixes are stored only in part), `lower_bound`, `upsert`, memory accounting. The SIMD comparison is a linear search.
- Adaptive control of migration, regression, sampling, statistics, reports, configuration and front ends: input and output or heuristics on floating point.
- Hash, heap and other adapters, distributed counters and key hashing: thin wrappers.

Stated with less than the code has:

- MigrationProof.ReadIsLatest: runs in which a put overtakes a flush or a lookup are the subject of MigrationPut; a memtable switch and its copy of the lock table are one step; one flush runs at a time; a key stands for its own hash.
- MigrationProof.LookupIsLatest: the depth at which a record was found and the decision to migrate it are left open, so nothing is said about how often records migrate.
- TwoTreeProof.TreesAgree: inserts are for keys in neither tree; the eviction clock is any choice of unlisted hot keys; exclusive runs in which an evictor inserts a key in the gap are the subject of TwoTreeGap.
- EbrProof.FreeIsSafe: runs with a store that comes too late are the subject of EbrLate; a thread counts as inside its region from the end of its entry on; which entries try to advance the epoch is left open, where the code counts entries against a threshold.
- EbrLate.StoreIsSafeIff: states in which other threads are on their way in are covered by EbrProof.StoreKeepsInvIff only, which is about the invariant.
- MigrationPut.PutIsSafeIff: states with a running flush, or a lookup of the key past its own put, are covered by MigrationProof.PutKeepsInvIff only, which is about the invariant.
- LockWords.FieldCountsReaders: shifts and masks by constants are written as division, remainder and product by powers of two; runs are those with at most 255 readers at a time.
- OlcErase.MergingTree.EraseMerge: no lock and no concurrent thread; nodes are values rather than arrays updated in place, thresholds are exact fractions, page counts are not kept, and nothing is said of the tree after the failed assert.
- OlcSingle.Run: nodes are values; an insert attempt that splits an inner page is a call of its own; OlcAlone.FinishesAlone is about how many there are.
- OlcRuns.TreeIsReplay: a page's contents change in one step while its lock is held; a reader sees arbitrary contents of a locked page rather than a half-finished update of it. OlcPage models the update of the arrays.
- StxTree.BTree.EraseOne: nodes are values, so shifting within slot arrays and sharing of nodes are not captured; a sibling is repaired when the descent is back in the parent; leaves are linked through their identities.
- StxTree.BTree.Insert: nodes are values, as for erasing.
- StxTree.BTree.BulkLoad: nodes are values; the sequence has to be strictly ascending, as the code expects of it.
- AntiCache.Store.Lookup: how many rounds of eviction each retry meets is a parameter, so the code's retry without end under lasting pressure is not captured.
- AntiCache.Store.EvictAll: needs one tuple to fit into a block, without which the code's loop does not end.
- AntiScan.Scan: reads ascending listings of both sides; needs what the loop needs to end, a refusal within some number of passes or a second pass that ends in the middle of a buffer, once a side starts over; two sides that both hold the largest key, which a store cannot have, are excluded then.
- ArtTree.Lookup: prefixes are always stored whole, so the branch that skips unchecked prefix bytes is present but not taken.
- ArtIndex.Art.Insert: nodes are values rather than structs moved in place; a leaf carries the key that the code loads through its tuple; the key is absent before, since the code runs past the end of a key that is present; values are told from pointers by their tag, exactly below two to the sixty-third (`TagRoundTrip`).
- CrcOutput.CrcIs: reflected initial values with bits above the width are left to CrcOutput.CrcOfRegister.
- CrcOutput.MoreIs: reflected CRCs whose final exclusive-or has bits above the width are left to CrcParts.PartsAgreeIff.
- EbrLive.EntersAlone: entries that try to advance the epoch are any of those that find it unchanged, as for FreeIsSafe.
- CrcPoly.RemainderIs: reflected initial values with bits above the width are left to CrcPoly.RegisterIsUnique.
- StxVerify.VerifyLeafLinks: pointers lead to leaves, as memory safety demands of them.
- CrcEngine.Table.constructor: the table is indexed by the byte as a number; 8-bit bytes are assumed.
