# QCDB storage engine in Dafny

QCDB is a small relational storage engine in C++: a B+ tree index, a lock manager with
two-phase locking and wait-die, an extendible hash table, slotted table pages with
transaction rollback, a buffer pool with an LRU replacer, a page latch and a tuple format.
This project models the parts where a mistake would be hard to see and proves what they
promise over every input, every run or every reachable state. `dafny verify dfyconfig.toml`
checks all of it.

## How it is organised

- **B+ tree** (`BPlusTree*.dfy`). Pages live in a map from page ids, as in the buffer pool.
  `BPlusTreeShape` says what a well-formed tree is: separators bound subtrees, parent ids
  name the page that points to a child, the leaf chain lists the leaves in key order.
  Splitting and merging are one relation, `Halved`, read in two directions
  (`BPlusTreeSplit`); growing and collapsing the root are another (`BPlusTreeRoot`).
  `BPlusTreeMoves`, `BPlusTreeInsertion` and `BPlusTreeDeletion` connect them with the
  operations and with page sizes, `BPlusTreeContents` with the finite map. The class
  `BPlusTree` has the loops and recursions of the program; `BPlusTreeIterator` has the scan.
- **Lock manager** (`Lock*.dfy`). `LockTable` is one record's list, `LockManager` the whole
  state machine with its invariant, `LockManagerClass` the methods that change the table in
  place, `LockRuns` serializability and the states of transactions, `LockProgress` freedom
  from deadlock and progress.
- **Extendible hash table** (`LowBits`, `ExtendibleHashTable`, `ExtendibleHashDepths`,
  `ExtendibleHash`).
- **Table pages** (`Bytes`, `TablePageLayout`, `TablePageOperations`, `TablePageRoom`,
  `TablePageBytes`, `TablePage`, `TableRollback`, `TableUndo`, `TableHeap`). The class
  `TablePage` works on 512 bytes with `memmove` loops and 32-bit fields; the layers below say
  what those bytes stand for.
- **Buffer pool and latch** (`Sequences`, `LruReplacer`, `BufferPoolModel`, `BufferPoolPins`,
  `BufferPool`, `PageLatch`, `LatchProgress`, `LatchLimit`).
- **Tuples** (`Tuple`).
- `Wrappers` has the type of values that may be missing.

## What turned out not to hold

- An update of a tuple moves the slots of live tuples only (`src/page/table_page.cpp:202`).
  The page stays well formed exactly when the length does not change or no tuple marked as
  deleted is stored below it: `TablePageOperations.UpdateKeepsIff`, with the example
  `TablePageOperations.UnsafeUpdateLosesTuple`.
- An abort does not always restore a page: a slot that an insert appended keeps its 8 bytes,
  so the old version of a tuple that was cut may no longer fit. `TableRollback.AbortRestores`
  gives the exact condition under which every undo step works, and says what the page is
  then; `TableRollback.AbortLosesUpdate` is an example. A run that adds no slot meets the
  condition (`TableRollback.RoomyWithoutNewSlots`). The condition is not needed for
  restoring: a later undo step may overwrite the tuple that could not be put back
  (`TableRollback.RestoredThoughNotRoomy`). What an abort restores in any case is the subject
  of `TableUndo.AbortRestoresOthers`.
- `TableHeap::MarkDelete` extends the write set even when the page refuses the delete
  (`src/table/table_heap.cpp:95-98`). There are two such inputs. A tuple that was marked
  before loses the mark of that other delete; a slot number past the last one makes the abort
  fail an assertion (`src/page/table_page.cpp:273`), unless a later insert has added the
  slot. `TableRollback.UndoDeleteIff` has both for one delete, `TableRollback.AbortRestoresIff`
  and `TableUndo.AbortRestoresOthers` for whole runs, and `TableUndo.AbortStops` is an example.
- An update may write an empty tuple. It cannot be undone, since the slot is empty then, and
  an insert of the same run into that slot cannot be undone either. An abort gets through
  exactly when there is no such insert and every delete names a slot
  (`TableUndo.AbortRestoresOthers`, example `TableUndo.AbortStops`).
- An insert into the hash table need not end. `ExtendibleHashTable.Settles` is the exact
  condition: `ExtendibleHashing.ExtendibleHash.Insert` ends under it,
  `ExtendibleHashTable.NeverEnds` shows that it loops forever otherwise, and
  `ExtendibleHashTable.NoRoomNeverEnds` and `ExtendibleHashTable.CollisionsNeverEnd` are
  examples.
- `DeletePage` leaves its entry in the page table, because the frame's page id is reset
  before it is read for the removal (`src/buffer/buffer_pool_manager.cpp:149-150`).
  An entry is right exactly when its page is live (`BufferPoolModel.EntryRightIff`); exactly
  when a fetch, a flush or a delete of an id breaks the pool is the subject of
  `BufferPoolModel.FetchKeepsIff`, `BufferPoolModel.FlushKeepsIff` and
  `BufferPoolModel.DeleteKeepsIff`, and `BufferPoolModel.StaleEntry` is an example. The flush
  of a deleted page whose frame is free writes page -1, in front of the file
  (`src/disk/disk_manager.cpp:66-70`).
- An unpin that does not say that the frame was written to may lose the write:
  `BufferPoolModel.UnpinKeepsIff` has the exact condition.
- `Begin(key)` of the index throws when all keys of the leaf it finds are smaller than the
  key, even if a later leaf has the answer (`src/index/b_plus_tree.cpp:539-542`).
  `BPlusTreeIterator.BeginAt` says exactly when it throws,
  `BPlusTreeIterator.ThrowsBefore` when there were entries to find, and
  `BPlusTreeIterator.BeginMisses` is an example.
- `TableHeap::InsertTuple` checks the frame of its first page and of a new one, but not those
  of the pages between (`src/table/table_heap.cpp:57-59`): `TableHeaps.TableHeap.InsertTuple`
  says exactly when it uses a null page.
- The page latch can lose a wake-up: when a reader leaves a latch with `max_readers_`
  readers, one waiter is notified (`src/include/common/rwmutex.h:50-60`); a second one is not,
  although there is room for it when the next reader leaves, and may sleep for ever. This can
  happen exactly if there are at least two threads more than the latch can count:
  `LatchLimit.NeverLostIff`, with the run of `LatchLimit.LosesWakeUp`.
- An inline column may be declared shorter than its type, and is then overwritten by the next
  column, overwrites the length of a VARCHAR, or leaves the buffer. Values read back exactly
  when there is no such column: `Tuples.RoundTripIff`, with the example
  `Tuples.NarrowColumnIsLost`. A column may also be declared longer than its type. If
  all columns are wide enough, some bytes of the tuple are never written exactly when there is
  such a column: `Tuples.FilledIff`.

## Model

| member | source | states |
|---|---|---|
| BPlusTreeIndex.Lookup | src/page/b_plus_tree_internal_page.cpp:87-97 | picks the last child whose separator is at most the key, so that the key lies in that child's interval |
| BPlusTreeIndex.ValueIndex | src/page/b_plus_tree_internal_page.cpp:57-64 | finds the first slot that names a child, or reports that there is none |
| BPlusTreeIndex.KeyIndex | src/page/b_plus_tree_leaf_page.cpp:52-61 | finds the first entry of a sorted leaf that is not smaller than the key |
| BPlusTreeIndex.LeafLookup | src/page/b_plus_tree_leaf_page.cpp:151-162 | finds the entry with the key in a sorted leaf exactly when there is one |
| BPlusTreeIndex.LeafInsert | src/page/b_plus_tree_leaf_page.cpp:95-115 | puts an absent key in the one place that keeps the leaf sorted |
| BPlusTreeIndex.InsertIntoHalf | src/index/b_plus_tree.cpp:179-184 | an entry put into the half that the comparison with the new page's first key picks gives the sorted entries of an insert before the split |
| BPlusTreeIndex.LeafRemove | src/page/b_plus_tree_leaf_page.cpp:174-188 | drops the entry with the key and no other; an absent key changes nothing |
| BPlusTreeIndex.BPlusTree.FindLeafPage | src/index/b_plus_tree.cpp:556-690 | the descent ends in the leaf whose interval contains the key, or in the leftmost leaf |
| BPlusTreeIndex.BPlusTree.GetValue | src/index/b_plus_tree.cpp:78-101 | answers as the finite map of the tree does |
| BPlusTreeIndex.BPlusTree.Split | src/index/b_plus_tree.cpp:204-219 | the new page gets the upper half of the slots, the moved children name it as their parent |
| BPlusTreeIndex.BPlusTree.Insert | src/index/b_plus_tree.cpp:114-130 | adds the key to the map and keeps tree, sizes and chain; a duplicate returns false and changes nothing at all |
| BPlusTreeIndex.BPlusTree.StartNewTree | src/index/b_plus_tree.cpp:138-150 | an empty tree becomes a single leaf with the entry |
| BPlusTreeIndex.BPlusTree.InsertIntoLeaf | src/index/b_plus_tree.cpp:161-193 | the map gains exactly the key, whether the leaf has room or must be split |
| BPlusTreeIndex.BPlusTree.SplitLeafAndInsert | src/index/b_plus_tree.cpp:177-186 | splitting a full leaf and linking the halves adds exactly the key to the map |
| BPlusTreeIndex.BPlusTree.InsertIntoParent | src/index/b_plus_tree.cpp:231-276 | linking a split-off page, however far up that goes, ends in a well-formed tree with legal sizes and the same entries |
| BPlusTreeIndex.BPlusTree.PopulateNewRoot | src/page/b_plus_tree_internal_page.cpp:109-115 | the two halves of a split root become the children of a new root |
| BPlusTreeIndex.BPlusTree.InsertIntoFullParent | src/index/b_plus_tree.cpp:255-268 | the same through a parent that is full and split in turn |
| BPlusTreeIndex.BPlusTree.SplitAndInsert | src/index/b_plus_tree.cpp:257-266 | the half that the key comparison picks contains the page that was split, so the link is found and made there |
| BPlusTreeIndex.BPlusTree.InsertNodeAfter | src/page/b_plus_tree_internal_page.cpp:122-135 | puts the new slot right behind the one of the old page |
| BPlusTreeIndex.BPlusTree.Remove | src/index/b_plus_tree.cpp:289-333 | the map loses exactly the key; the tree stays legal; the pages reported as deleted are exactly those that left it |
| BPlusTreeIndex.BPlusTree.CoalesceOrRedistribute | src/index/b_plus_tree.cpp:344-425 | mends a page one slot short, up to the root, keeping all entries: a left neighbour that has slots to spare lends one, else a right one, else the page goes into its left neighbour or, as the first child, takes in its right one; says whether the page itself left the tree |
| BPlusTreeIndex.BPlusTree.Redistribute | src/index/b_plus_tree.cpp:469-476 | exactly one slot goes from the neighbour to the page; all pages have legal sizes and the entries are the same |
| BPlusTreeIndex.BPlusTree.Coalesce | src/index/b_plus_tree.cpp:441-456 | after merging two neighbours and mending their parent all sizes are legal and the entries the same |
| BPlusTreeIndex.BPlusTree.AdjustRoot | src/index/b_plus_tree.cpp:488-508 | an empty root leaf empties the tree, a root with one child hands over to it, any other root stays |
| BPlusTreeIndex.BPlusTree.MoveAllTo | src/page/b_plus_tree_internal_page.cpp:200-238 | a page takes over all slots of its right neighbour, with the separator from the parent |
| BPlusTreeIndex.BPlusTree.MoveLastToFrontOf | src/page/b_plus_tree_internal_page.cpp:289-328 | the last slot of the left neighbour becomes the first of the right one, and the separator follows |
| BPlusTreeIndex.BPlusTree.MoveFirstToEndOf | src/page/b_plus_tree_internal_page.cpp:248-282 | the first slot of the right neighbour becomes the last of the left one, and the separator follows |
| BPlusTreeSplit.CutKeepsTree | src/page/b_plus_tree_leaf_page.cpp:124-140 | any cut of a page that leaves something on both sides keeps a well-formed tree well formed |
| BPlusTreeSplit.JoinKeepsTree | src/page/b_plus_tree_leaf_page.cpp:198-229 | any merge of two neighbours keeps a well-formed tree well formed |
| BPlusTreeSplit.HalvedEntries | src/page/b_plus_tree_leaf_page.cpp:124-140 | cutting and merging keep the entries along the chain |
| BPlusTreeRoot.GrowKeepsTree | src/index/b_plus_tree.cpp:237-249 | a root above a root keeps a well-formed tree well formed |
| BPlusTreeRoot.CollapseKeepsTree | src/index/b_plus_tree.cpp:497-502 | dropping a root with one child keeps a well-formed tree well formed |
| BPlusTreeMoves.SplitKeepsTree | src/index/b_plus_tree.cpp:204-276 | splitting a page, root or not, and linking the new half keeps tree and entries |
| BPlusTreeMoves.MergeKeepsTree | src/index/b_plus_tree.cpp:441-456 | merging two neighbours keeps tree and entries |
| BPlusTreeMoves.LendLastKeepsTree | src/page/b_plus_tree_leaf_page.cpp:269-303 | lending a slot to the right keeps tree and entries |
| BPlusTreeMoves.LendFirstKeepsTree | src/page/b_plus_tree_leaf_page.cpp:239-263 | lending a slot to the left keeps tree and entries |
| BPlusTreeShape.SeparatorsIncreasing | src/include/page/b_plus_tree_internal_page.h:4-9 | in a well-formed tree the intervals of the children of a page are in order and do not overlap |
| BPlusTreeContents.EntriesSorted | src/page/b_plus_tree_leaf_page.cpp:95-115 | in every well-formed tree the entries along the leaf chain are in strictly increasing key order |
| BPlusTreeContents.LeafDecides | src/index/b_plus_tree.cpp:78-101 | the leaf found for a key decides whether the whole tree has it |
| BPlusTreeInsertion.ChooseHalf | src/index/b_plus_tree.cpp:259-266 | the pushed key is smaller than the first key of the new page exactly when the old page is in the lower half |
| BPlusTreeInsertion.LeafPending | src/index/b_plus_tree.cpp:161-193 | a full leaf, split with the new entry, is ready to be linked, and the linked tree stands for the map with the key added |
| BPlusTreeInsertion.FullParentPending | src/index/b_plus_tree.cpp:255-268 | splitting a full parent leaves the same situation one level up, with the same entries |
| BPlusTreeDeletion.BorrowFromLeft | src/index/b_plus_tree.cpp:356-369 | under the test of the sum of sizes the lender keeps the minimum and the borrower reaches it |
| BPlusTreeDeletion.BorrowFromRight | src/index/b_plus_tree.cpp:371-386 | the same for the right neighbour |
| BPlusTreeDeletion.MergeNeighbours | src/index/b_plus_tree.cpp:388-404 | otherwise the merged page does not overflow, and only the parent may be one slot short |
| BPlusTreeDeletion.SiblingExists | src/index/b_plus_tree.cpp:353-374 | a page that is not the root always has a sibling |
| BPlusTreeDeletion.CollapseRoot | src/index/b_plus_tree.cpp:496-506 | a root left with one child gives a legal tree with the same entries |
| BPlusTreeIterator.LeavesEquallyDeep | src/index/b_plus_tree.cpp:556-690 | all leaves have the same distance from the root |
| BPlusTreeIterator.ChainIsTraversal | src/page/b_plus_tree_leaf_page.cpp:124-140 | the leaf chain is the list of leaves that a left-to-right traversal of the tree meets |
| BPlusTreeIterator.IndexIterator.IsEnd | src/index/index_iterator.cpp:24-26 | true exactly when no entry is left |
| BPlusTreeIterator.IndexIterator.Current | src/index/index_iterator.cpp:30-32 | the first entry that is left |
| BPlusTreeIterator.IndexIterator.Next | src/index/index_iterator.cpp:35-50 | drops exactly the first of the entries left, across leaves |
| BPlusTreeIterator.Begin | src/index/b_plus_tree.cpp:519-526 | an iterator with all entries of a nonempty tree still to come |
| BPlusTreeIterator.Scan | src/index/index_iterator.cpp:24-50 | running from the begin to the end gives the entries of the map, in strictly increasing key order |
| BPlusTreeIterator.BeginAt | src/index/b_plus_tree.cpp:534-545 | throws exactly when the leaf that answers for the key has smaller keys only, never for a key of the map; otherwise exactly the entries from the key on are still to come |
| BPlusTreeIterator.ThrowsBefore | src/index/b_plus_tree.cpp:539-542 | when it throws, the entries from the key on are those of the later leaves, and there are some exactly when the leaf is not the last |
| BPlusTreeIterator.BeginMisses | src/index/b_plus_tree.cpp:539-542 | a tree of two leaves where the search for 3 throws though 5 and 6 follow |
| LockTable.RequestOk | src/concurrency/lock_manager.cpp:14-199 | a request, granted, queued or refused, keeps the record's list legal: granted prefix, type, count, order, blocked first waiter |
| LockTable.RequestAnswer | src/concurrency/lock_manager.cpp:14-199 | a request is granted exactly when nobody waits and no holder conflicts with it, and otherwise dies exactly when somebody on the list is older; the others keep their places |
| LockTable.UpgradeNeedsNoWaiter | src/concurrency/lock_manager.cpp:201-270 | an upgrade that waits is the first waiter |
| LockTable.UpgradeKeeps | src/concurrency/lock_manager.cpp:201-270 | both ways of upgrading keep the list legal |
| LockTable.UpgradeAnswer | src/concurrency/lock_manager.cpp:201-270 | an upgrade is granted exactly when nobody else holds the lock, and otherwise dies exactly when somebody on the list is older; until it is granted the shared lock stays |
| LockTable.ReleaseKeeps | src/concurrency/lock_manager.cpp:272-451 | a release, with the grants it causes, keeps the list legal, so that no waiter that could run stays asleep |
| LockManager.StepKeeps | src/concurrency/lock_manager.cpp:14-451 | every step of every client that follows two-phase locking keeps the invariant of lock table, lock sets and sleepers |
| LockManagerClass.RemoveDeleted | src/concurrency/lock_manager.cpp:434-436 | keeps exactly the entries that are not marked for deletion, in order |
| LockManagerClass.GrantNext | src/concurrency/lock_manager.cpp:323-357 | with no holder left grants the first waiter, and with it the whole run of shared requests it starts |
| LockManagerClass.ReleaseShared | src/concurrency/lock_manager.cpp:403-436 | one of several holders leaves; a lone holder whose upgrade is the first waiter gets it |
| LockManagerClass.Manager.CheckForWaitDie | src/concurrency/lock_manager.cpp:453-460 | true exactly when the transaction is at least as old as everyone on the list |
| LockManagerClass.Manager.LockShared | src/concurrency/lock_manager.cpp:14-116 | the call up to where it may block is the request step of the model, and keeps the invariant; granted exactly when nobody waits and no holder conflicts, else refused exactly when somebody on the list is older |
| LockManagerClass.Manager.LockExclusive | src/concurrency/lock_manager.cpp:118-199 | the same for an exclusive lock |
| LockManagerClass.Manager.LockUpgrade | src/concurrency/lock_manager.cpp:201-270 | the same for an upgrade, granted exactly when nobody else holds the lock |
| LockManagerClass.Manager.Resume | src/concurrency/lock_manager.cpp:100-116 | what a woken thread does is the wake-up step of the model |
| LockManagerClass.Manager.Unlock | src/concurrency/lock_manager.cpp:272-451 | the scan, the grants and the clean-up are the release step of the model, and keep the invariant |
| LockManagerClass.Manager.IsClean | src/concurrency/lock_manager.cpp:468-478 | true exactly when every list is empty |
| LockRuns.Exclusion | src/concurrency/lock_manager.cpp:14-451 | in a reachable state no two transactions hold conflicting locks on a record |
| LockRuns.HasKept | src/concurrency/lock_manager.cpp:272-451 | a lock is lost only by unlocking that record |
| LockRuns.NothingGained | src/concurrency/lock_manager.cpp:17-22 | a transaction past its growing phase gains no lock |
| LockRuns.ConflictOrder | src/concurrency/lock_manager.cpp:272-280 | in every run a conflict goes from the transaction whose first unlock is earlier to the one whose first unlock is later |
| LockRuns.ConflictsAcyclic | src/concurrency/lock_manager.cpp:272-280 | the conflict graph of every run has no cycle |
| LockRuns.StateHistory | src/concurrency/lock_manager.cpp:14-280 | in every run a transaction is in the state of its last commit or abort, or before that ABORTED exactly after a refused request, else SHRINKING exactly after an unlock, else GROWING |
| LockProgress.NoDeadlock | src/concurrency/lock_manager.cpp:453-460 | along any path of waits, over any records, transaction ids grow |
| LockProgress.SomebodyMoves | src/concurrency/lock_manager.cpp:272-478 | in a reachable state that is not clean some transaction can wake up or release a lock |
| LockProgress.DrainShrinks | src/concurrency/lock_manager.cpp:272-451 | every such step makes the work left smaller |
| LockProgress.DrainEnds | src/concurrency/lock_manager.cpp:272-478 | without new requests every run ends in a clean table, having granted every waiter |
| ExtendibleHashTable.DoubleKeeps | src/hash/extendible_hash.cpp:181-187 | doubling the directory keeps its invariant and every answer |
| ExtendibleHashTable.SplitKeeps | src/hash/extendible_hash.cpp:151-179 | splitting a bucket keeps slots sharing buckets exactly when they agree on as many low bits as it is deep, records under their hash, and at most `size + depth` of them |
| ExtendibleHashTable.SplitGet | src/hash/extendible_hash.cpp:151-179 | after a split each key is answered by the records dealt out, or as before |
| ExtendibleHashTable.GrownKeeps | src/hash/extendible_hash.cpp:181-202 | a pass that only grows the table keeps the invariant and every answer |
| ExtendibleHashTable.GrownSettles | src/hash/extendible_hash.cpp:181-202 | growing does not change whether the insert will end |
| ExtendibleHashTable.NeverEnds | src/hash/extendible_hash.cpp:127-203 | an insert that does not settle must grow again after any number of passes |
| ExtendibleHashTable.CollisionsNeverEnd | src/hash/extendible_hash.cpp:127-203 | two keys with one hash in buckets of one record |
| ExtendibleHashTable.NoRoomNeverEnds | src/hash/extendible_hash.cpp:127-203 | with buckets of size 0 no insert into an empty table ends, whatever key and hash |
| ExtendibleHashTable.FewKeysSettle | src/hash/extendible_hash.cpp:127-203 | if at most `size` keys, the new one among them, share its hash, the insert ends |
| ExtendibleHashTable.GrowthBound | src/hash/extendible_hash.cpp:127-203 | an insert that settles grows only while the table looks at fewer bits than hashes have |
| ExtendibleHashing.RemoveIf | src/hash/extendible_hash.cpp:104-109 | with distinct keys the compaction leaves exactly one stale record at the end |
| ExtendibleHashing.Redistribute | src/hash/extendible_hash.cpp:158-164 | deals the records out by one bit of their hash, in order |
| ExtendibleHashing.Relink | src/hash/extendible_hash.cpp:166-177 | renames exactly the slots of the split bucket, by the new bit |
| ExtendibleHashing.ExtendibleHash.Find | src/hash/extendible_hash.cpp:70-89 | the answer of the table |
| ExtendibleHashing.ExtendibleHash.Remove | src/hash/extendible_hash.cpp:96-115 | forgets the key, keeps all other answers, and says whether it was there |
| ExtendibleHashing.ExtendibleHash.Insert | src/hash/extendible_hash.cpp:123-204 | if it settles, the loop ends with the key bound to the value, all other answers kept, and a depth of at most the hash width or the old depth; the bucket of the key gets deeper exactly if the key was new to it and it was full, and no other bucket does |
| ExtendibleHashDepths.GrownDeepens | src/hash/extendible_hash.cpp:181-203 | a pass that doubles the directory makes the keys in the full bucket one level deeper, and no others |
| ExtendibleHashDepths.SplitDeepens | src/hash/extendible_hash.cpp:150-179 | the same for a pass that splits a bucket |
| ExtendibleHashing.ExtendibleHash.SplitBucket | src/hash/extendible_hash.cpp:151-179 | the loops over records and directory split the bucket as the model does |
| ExtendibleHashing.ExtendibleHash.Expand | src/hash/extendible_hash.cpp:181-202 | the loop over the new slots doubles the directory and splits the full bucket as the model does |
| Bytes.DecodeEncode | src/page/table_page.cpp:348-380 | a 32-bit field reads back as the value written |
| Bytes.MemMove | src/page/table_page.cpp:192-193 | copies the old bytes even when source and target overlap |
| TablePageLayout.SpliceKeeps | src/page/table_page.cpp:49-254 | replacing one tuple by another run of bytes keeps the tuples tiling the page from the free space pointer to its end, if there is room |
| TablePageLayout.SpliceItems | src/page/table_page.cpp:49-254 | and changes what one slot holds, nothing else |
| TablePageOperations.InsertRefines | src/page/table_page.cpp:49-94 | the tuple goes to the first empty slot or a new one; all other slots hold what they held |
| TablePageOperations.PurgeRefines | src/page/table_page.cpp:214-254 | the slot becomes empty, all others hold what they held, and the bytes are free again |
| TablePageOperations.FlipRefines | src/page/table_page.cpp:102-138 | marking and taking the mark back change that slot alone |
| TablePageOperations.UpdateRefines | src/page/table_page.cpp:140-207 | a safe update changes the tuple of its slot and nothing else |
| TablePageOperations.UpdateKeepsIff | src/page/table_page.cpp:140-207 | an update keeps the page well formed exactly when it keeps the length or no marked tuple lies below |
| TablePageOperations.UnsafeUpdateLosesTuple | src/page/table_page.cpp:199-205 | a page where an update and a rollback bring up the bytes of another tuple |
| TablePageRoom.RoomIs | src/page/table_page.cpp:383-385 | the room in a page is what its items leave: 8 bytes a slot, and the tuples |
| TablePageRoom.InsertFitsIff | src/page/table_page.cpp:49-75 | an insert is taken exactly when some well-formed page can hold the items with the tuple in the first empty slot, or in a new one if there is none |
| TablePageRoom.UpdateFitsIff | src/page/table_page.cpp:144-162 | an update is taken exactly when the tuple is live and some well-formed page can hold the items with the new one |
| TablePages.TablePage.Init | src/page/table_page.cpp:13-24 | whatever the bytes were, they stand for an empty page with the given links |
| TablePages.TablePage.InsertTuple | src/page/table_page.cpp:49-94 | on bytes: succeeds exactly when some page can hold the items with the tuple in the first empty slot or a new one, and then holds those; else changes nothing |
| TablePages.TablePage.MarkDelete | src/page/table_page.cpp:102-138 | on bytes: refuses a missing or marked slot; the items are as before, but for a mark on a live tuple |
| TablePages.TablePage.UpdateTuple | src/page/table_page.cpp:140-207 | on bytes: succeeds exactly for a live tuple if some page can hold the items with the new one, hands out the old one, and keeps the page well formed exactly when it is safe; the page then holds those items |
| TablePages.TablePage.ApplyDelete | src/page/table_page.cpp:214-254 | on bytes: the slot becomes empty and all others hold what they held |
| TablePages.TablePage.RollbackDelete | src/page/table_page.cpp:262-279 | on bytes: makes a marked tuple live again and changes nothing else |
| TablePages.TablePage.GetTuple | src/page/table_page.cpp:281-315 | returns the bytes of a live tuple, and nothing for other slots |
| TablePages.TablePage.GetFreeSpaceSize | src/page/table_page.cpp:383-385 | the room between slots and tuples |
| TablePages.Abort | src/concurrency/transaction_manager.cpp:52-71 | the loop over the write set undoes it from the back, for every write set whose undo steps meet a well-formed page and name slots as the program asserts |
| TablePages.AbortRun | src/concurrency/transaction_manager.cpp:52-71 | an abort that gets through leaves in every slot that the run did not update what was there before, up to marks on which a delete of the run was refused, and in all slots if the run was roomy; added slots are empty and stay |
| TableRollback.UndoRun | src/concurrency/transaction_manager.cpp:52-71 | all undo steps work exactly when the run is roomy, and then give the page back up to empty slots and the marks of refused deletes |
| TableRollback.AbortRestores | src/concurrency/transaction_manager.cpp:52-71 | the same for an abort right after the run, with all tuple bytes and items restored; the slots are as many as after the run, so that each added one costs 8 bytes |
| TableRollback.AbortRestoresIff | src/concurrency/transaction_manager.cpp:52-71 | such an abort restores all items exactly when the run deletes no tuple that was marked before it |
| TableRollback.RoomyWithoutNewSlots | src/page/table_page.cpp:50-92 | a run that adds no slot, writes no empty tuple and deletes from existing slots is roomy |
| TableUndo.AbortRestoresOthers | src/concurrency/transaction_manager.cpp:52-71 | for every run, roomy or not, all undo steps meet a well-formed page and a slot they may name exactly when no delete names a slot that is missing at the end and no inserted tuple is emptied; then every slot the run did not update holds what it held, without the mark if a delete was refused, the others are live, marked or empty as they were, or empty if they were emptied |
| TableUndo.PlainIsAbortable | src/concurrency/transaction_manager.cpp:52-71 | a run that writes no empty tuple and deletes from slots there are at its end can be undone |
| TableUndo.AbortStops | src/page/table_page.cpp:217-276 | two runs on an empty page whose abort does not get through: a refused delete, and an insert whose tuple was emptied |
| TableUndo.UndoIsSafe | src/page/table_page.cpp:199-205 | undoing an update is safe even when later ones could not be undone: a length can only differ where no marked tuple lies below |
| TableRollback.RestoredThoughNotRoomy | src/concurrency/transaction_manager.cpp:52-71 | a run that is not roomy and is restored all the same |
| TableRollback.AbortLosesUpdate | src/concurrency/transaction_manager.cpp:52-71 | a run after which the abort leaves the new version of a tuple |
| TableRollback.UndoDeleteIff | src/table/table_heap.cpp:86-100 | for every slot number, undoing a delete finds its slot and restores the page exactly when the slot is there and its tuple was not marked before |
| TableRollback.UndoDeleteRevives | src/table/table_heap.cpp:86-100 | a page where deleting a marked tuple and aborting bring it back to life |
| TableHeaps.TableHeap.InsertTuple | src/table/table_heap.cpp:36-84 | on the bytes and links of the pages: aborts exactly for tuples that do not fit a page, without a frame for the first page, or when all pages are passed and there is no frame for a new one; uses a null page exactly when the search stops at a later page without a frame; changes nothing then; else the first page with room takes the tuple and at most one page is added |
| TableHeaps.TableHeap.GetTuple | src/table/table_heap.cpp:143-155 | finds the bytes of the record id exactly when its slot holds a live tuple and there is a frame |
| TableHeaps.InsertAndGet | src/table/table_heap.cpp:36-155 | an inserted tuple reads back from its record id |
| LruReplacers.LRUReplacer.Insert | src/buffer/lru_replacer.cpp:18-29 | the value moves to the front, once |
| LruReplacers.LRUReplacer.Victim | src/buffer/lru_replacer.cpp:34-43 | takes the value whose last insert is oldest |
| LruReplacers.LRUReplacer.Erase | src/buffer/lru_replacer.cpp:49-58 | removes the value and says whether it was there |
| BufferPoolModel.ChoiceIff | src/buffer/buffer_pool_manager.cpp:62-78 | no frame can be taken exactly when all are pinned |
| BufferPoolModel.FetchKeeps | src/buffer/buffer_pool_manager.cpp:48-87 | a harmless fetch keeps the pool right and all contents, and succeeds exactly when the page is resident or some frame is not pinned |
| BufferPoolModel.NewKeeps | src/buffer/buffer_pool_manager.cpp:171-199 | a new page is zero and has a new id, all other contents stay, and it exists exactly when some frame is not pinned |
| BufferPoolModel.DeleteKeeps | src/buffer/buffer_pool_manager.cpp:141-161 | a harmless delete of a page that is not pinned takes it away, all other contents stay, in spite of the table entry left behind |
| BufferPoolModel.StepKeeps | src/buffer/buffer_pool_manager.cpp:48-199 | every harmless step keeps each frame free, in the replacer or pinned, clean frames equal to the disk, page ids on disk to those handed out, and the content of every other page |
| BufferPoolModel.CacheTransparent | src/buffer/buffer_pool_manager.cpp:48-199 | over every run of harmless steps from a pool that is right a page holds what was last written to it |
| BufferPoolModel.TableIsBijection | src/buffer/buffer_pool_manager.cpp:48-199 | in every run of a new pool the table is one-to-one on live pages, and onto the frames that are not free |
| BufferPoolModel.FramesAccounted | src/buffer/buffer_pool_manager.cpp:48-199 | in every run of a new pool a frame is exactly one of free, in the replacer and pinned; one in the replacer that is clean equals the disk |
| BufferPoolPins.PinsCounted | src/buffer/buffer_pool_manager.cpp:48-199 | in every run of a new pool the pins of a page are the fetches and the creation that gave it out less the unpins that returned true; a page with a frame is in the replacer exactly when these are equal |
| BufferPoolPins.DirtyTold | src/buffer/buffer_pool_manager.cpp:48-199 | in every run of a new pool the frame of a page is dirty exactly if the page was created or unpinned as dirty since it came in |
| BufferPoolPins.IdsInOrder | src/buffer/buffer_pool_manager.cpp:171-199 | in every run page ids are handed out in order, one a call, also for a call that finds no frame |
| BufferPoolPins.EvictedLast | src/buffer/buffer_pool_manager.cpp:62-78 | a page that is not deleted loses its frame only to a page without one, when none is free and its frame is the last in the replacer |
| BufferPoolPins.FreeQueue | src/buffer/buffer_pool_manager.cpp:62-66 | in every run free frames are taken in the order in which they became free |
| BufferPoolModel.StaleEntry | src/buffer/buffer_pool_manager.cpp:147-152 | a pool where a deleted id breaks the bookkeeping when it is fetched or flushed, and finds another page once its frame is reused |
| BufferPoolModel.EntryRightIff | src/buffer/buffer_pool_manager.cpp:147-152 | the frame that the table names for an id has that page exactly when the page is live |
| BufferPoolModel.FetchKeepsIff | src/buffer/buffer_pool_manager.cpp:48-87 | for every id a fetch keeps the pool right exactly when the entry does not name a free frame, or, without an entry, the page is on disk or there is no frame |
| BufferPoolModel.FlushKeepsIff | src/buffer/buffer_pool_manager.cpp:120-131 | for every id a flush keeps the pool right, and writes no page with an id that was not handed out, exactly when the entry does not name a free frame |
| BufferPoolModel.UnpinKeepsIff | src/buffer/buffer_pool_manager.cpp:95-112 | for every id an unpin keeps the pool right exactly when it says dirty, was not for writing, gave no pin back, or the frame is dirty, has another writer or equals the disk |
| BufferPoolModel.DeleteKeepsIff | src/buffer/buffer_pool_manager.cpp:141-161 | for every id a delete keeps the pool right exactly when the page is live, has no entry, or its entry names a pinned frame |
| BufferPools.BufferPoolManager.TakeFrame | src/buffer/buffer_pool_manager.cpp:62-78 | takes a free frame first, else the one unpinned longest ago, written back if dirty |
| BufferPools.BufferPoolManager.FetchPage | src/buffer/buffer_pool_manager.cpp:48-87 | for every id the fetch of the model; the pool stays right exactly when it is harmless; null exactly when the page is not resident and all frames are pinned; the frame has the page exactly when it is live or had no entry, and for a live page its content |
| BufferPools.BufferPoolManager.UnpinPage | src/buffer/buffer_pool_manager.cpp:95-112 | for every id the unpin of the model; the pool stays right exactly when it is harmless; false exactly when the page is not resident or not pinned |
| BufferPools.BufferPoolManager.FlushPage | src/buffer/buffer_pool_manager.cpp:120-131 | for every id the flush of the model; the pool stays right exactly when the entry does not name a free frame; the disk then has the content of a live page; false exactly when it is not resident |
| BufferPools.BufferPoolManager.DeletePage | src/buffer/buffer_pool_manager.cpp:141-161 | for every id the delete of the model; the pool stays right exactly when it is harmless; false exactly when the frame is pinned |
| BufferPools.BufferPoolManager.NewPage | src/buffer/buffer_pool_manager.cpp:171-199 | is the creation of the model; null exactly when all frames are pinned |
| PageLatch.StepKeeps | src/include/common/rwmutex.h:28-60 | every step, spurious wake-ups included, keeps the invariant of counters and parked threads |
| PageLatch.WriterIsAlone | src/include/common/rwmutex.h:28-60 | in every interleaving of any threads on a new latch, a thread in the write section excludes all others |
| PageLatch.ReadersOnlyLeave | src/include/common/rwmutex.h:43-48 | over any stretch of steps during which a writer has entered, no reader comes in |
| PageLatch.DrainingWriter | src/include/common/rwmutex.h:28-35 | in every interleaving a writer parked for the readers without a notification is the only one, and some thread is reading |
| PageLatch.NobodySleepsAlone | src/include/common/rwmutex.h:37-60 | if a thread is parked, some thread is inside, or has been notified: in every interleaving if there is at most one thread more than the latch can count, and of any threads while it is never full |
| LatchLimit.NeverLostIff | src/include/common/rwmutex.h:43-60 | no interleaving leaves a thread parked with nobody inside or notified exactly when there is at most one thread more than the latch can count |
| LatchLimit.LosesWakeUp | src/include/common/rwmutex.h:50-60 | with one more there is a run after which one thread sleeps and all others are outside |
| LatchProgress.LetIn | src/include/common/rwmutex.h:28-48 | in every interleaving a thread that asks to read is let in exactly when no writer has claimed the latch and it is not full, and one that asks to write exactly when no writer has claimed it and nobody reads |
| LatchProgress.UnlockLeaves | src/include/common/rwmutex.h:37-60 | in every run a thread whose last call was an unlock is outside |
| LatchProgress.SomebodyMoves | src/include/common/rwmutex.h:28-60 | if some thread is not outside, some thread can unlock, or has been notified and gets further when it looks again |
| LatchProgress.DrainShrinks | src/include/common/rwmutex.h:28-60 | each unlock and each wake-up that gets further shortens the way still to go, and no other wake-up lengthens it |
| LatchProgress.DrainEnds | src/include/common/rwmutex.h:28-60 | from every reachable state, a run of unlocks and wake-ups alone has at most three moves a thread; where no move is left every thread is outside, and every parked thread has been inside, if there is at most one thread more than the latch can count or it was never full |
| Tuples.RegionsFill | src/table/tuple.cpp:14-39 | every byte of a tuple belongs to exactly one column |
| Tuples.FilledIff | src/table/tuple.cpp:14-39 | if every inline column is as long as its type, the constructor writes every byte, so that the tuple does not depend on what the buffer held; among schemas with wide enough columns only then |
| Tuples.BuildSchema | src/catalog/schema.cpp:14-32 | column offsets, exactly the columns that are not inlined in increasing order, and the length of the fixed part |
| Tuples.SizeOf | src/table/tuple.cpp:17-20 | the sum over the columns that are not inlined is the size of the layout |
| Tuples.BuildTuple | src/table/tuple.cpp:14-39 | for every schema and matching values whose stores stay in the buffer, the loops do those stores; if the columns are wide enough every column reads back its value |
| Tuples.StoredIsRead | src/table/tuple.cpp:73-96 | a stored column is read back, through its offset if it is a VARCHAR |
| Tuples.WideReadsBack | src/table/tuple.cpp:14-96 | with columns as wide as their types no store leaves the buffer and every column reads back, whatever the buffer held before |
| Tuples.RoundTripIff | src/table/tuple.cpp:14-96 | for every schema, all values read back and no store leaves the buffer exactly when every inline column is at least as long as its type |
| Tuples.VarcharStored | src/type/varlen_type.cpp:147-156 | an offset, a length and the bytes behind it make a stored VARCHAR |
| Tuples.NarrowColumnIsLost | src/catalog/column.cpp:11-20 | a schema of two columns for which not all values read back |

## Left out

- Latch crabbing, page sets and pins of the B+ tree: the tree is single-threaded here. Emptied pages leave the store when they are merged, not when the page set is released.
- B+ tree keys are integers with their order, for any key type with a total order; an order from a comparator object is not modelled.
- The header page, which records the root page id by index name, and running out of memory.
- Lock manager: the client consults its lock sets first, as the table page does, so the branch of `LockShared` for a lock the transaction already holds is not reached; strict two-phase locking as an option of the constructor, and the mutex and condition variables inside a call, are not modelled.
- The lock release of commit and abort, and the deletes that a commit applies.
- Hash table: the values of `std::hash` are a parameter; the mutex is left out, and so is a directory of 2^31 slots or more, for which the shifts of the program overflow. The page table of the buffer pool is a map, which the hash table is proved to implement while its inserts settle.
- TableRollback.AbortRestores: one transaction alone on one page; pages of a heap are independent of each other, interleaved transactions are not covered.
- TableHeaps.TableHeap.InsertTuple: for which pages the buffer pool has a frame is a parameter; latches and pins are left out, and a new page needs an id below 2^31.
- TablePages.Abort: pages that are no longer well formed, which only an unsafe update leaves; the runs of `TableRollback` and `TableUndo` have safe updates only, by the exact condition of `TablePageOperations.UpdateKeepsIff`.
- TableUndo.AbortRestoresOthers: an undone insert that finds its slot empty counts as failed; the program asserts on the slot's stale offset there, and goes on with an empty slot if that lies behind the free space pointer.
- TablePages.TablePage.ApplyDelete: requires a slot that is not empty, because the program asserts that the tuple lies behind the free space pointer.
- Buffer pool: the disk is a map with an increasing id counter; a page that was never written reads as what the buffer held, where the program fills with zeros inside the file.
- Tuples.FilledIff: whether a schema with a column shorter than its type leaves bytes unwritten; its values do not read back in any case.
- Tuples: schemas whose fixed part does not fit a 32-bit length; NULL values, whose length marker is added to the size, and the arithmetic, casts and comparisons of values; values are their bytes in memory.
- Logging, recovery, file access and the SQLite table interface.
