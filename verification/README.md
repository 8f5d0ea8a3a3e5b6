# A verified model of the page-based table store

The repository stores tables as B+trees over 4096-byte pages, reads and writes those pages through a
buffer pool, and keeps them on disk in a slotted format. This project models that core in Dafny and
proves what it is for:

* **A table is a sorted map.** `insert`, `delete`, `get`, `get_range` and `vacuum` answer as a map from keys to
  rows does, over every run, through every cascade of splits, merges, borrows and root changes
  (`InsertMethods.Insert`, `DeleteMethods.Delete`, `Lookups.Get`, `Scans.GetRange`, `TableRuns.Run`).
* **The invariant is the whole structure**: keys of a leaf in `[lo, hi)` and separators strictly in
  `(lo, hi)`, equal depth, the leaf chain equal to the leaves in key order in both directions, every page
  within its byte budget, and page numbers 1 to `page_count` - 1 shared out exactly between the tree and
  an acyclic free list (`Focus.Sound`).
* **The buffer pool is a map with latches.** What a client sees of a page changes only by creating it or
  writing through a guard on it, whatever is evicted, loaded and flushed, and a guarded frame is never remapped.
  Over every run, with guards held across requests, a page that exists is opened as long as fewer pages are held
  than there are frames (`BufferPools.BufferPool`, `PoolRuns.Run`, `PoolRuns.Session`).
* **A table works through the pool.** Every request that an insert or a delete makes is possible when its turn
  comes: no page is latched twice, and every page handed over can be written. Carried out on the pool, the
  requests leave it showing the table's new pages if and only if there are frames for the pages latched at a time
  (`PooledTables.InsertThrough`, `PooledTables.DeleteThrough`).
* **The page codec round-trips, in the format it promises.** `Layout` says what each of the 4096 bytes of a page
  holds, without speaking of a reader or a writer. The reader accepts exactly the proper pages that the bytes are laid
  out as, whatever the checksum function; the writer refuses exactly the pages that are not proper, and leaves each
  other one laid out so, packed, with zeros in what is left, and read back as the same page (`CodecMethods`,
  `Spelling`, `PageCodec`).
* **Vacuum preserves meaning** and its level loop terminates (`Vacuuming.Vacuum`, `Packing.UpShrinks`).

Where the code does not do what one might expect, the exact condition is part of the theorem and a concrete
input shows the other side:

* A borrow moves rows before it replaces the separator above, and the replacement can fail for lack of
  room. `DeleteMethods.Delete` succeeds if and only if `DeleteFits`, a condition on the tree before the
  call; with any keys it does when the internal pages on the way have room for a key of the greatest size
  (`DeleteGuards.RoomyDeleteFits`), and with integer keys this failure never occurs. After it, the leaf chain
  still holds exactly the right rows, and exactly those between two keys are not found: the old separator and the
  one that did not fit, which `FailedDelete` computes from the tree before the call and which always differ
  (`LostAt`, `Misrouting.BrokenFinds`). `Counterexamples.FailingDelete` inserts 23 rows, vacuums and deletes the
  last; one of the others is in the table afterwards and is not found.
* Vacuum can leave an internal page with one child and no key. `Vacuuming.Vacuum` builds exactly `LoadTree`
  and gives every internal page a key if and only if `LoadKeyed`; with integer keys that is a condition on
  the number of leaves, met up to 194 and not met at 195 (`Packing.IntLoadKeyed`). On a page without a key a
  delete finds no sibling and panics, exactly when `DeletePanics`; `Counterexamples.PanickingDelete` inserts
  21 rows, vacuums, and deletes the last one. On an empty table vacuum panics.
* A column name longer than `MAX_FIELD_LEN` is written but refused on reading: a meta page comes back if
  and only if `Returns` (`PageCodec.RoundTrip`, `Counterexamples.LongNameIsRefused`). In the pool, such a page is
  lost when it is evicted, and no other page ever is (`Pools.Faded`, `Counterexamples.LosingEviction`).
* A dirty page that cannot be written stops the pool from clearing its frame, and only that does
  (`PoolRuns.StuckIsBlocked`); a flush succeeds if and only if there is none (`PoolRuns.SaveableIs`). No operation
  of a table puts such a page into the pool.

## How the model is built

`Schemas` and `Pages` are the values: keys, rows, pages, and the operations on one or two pages, with the
byte arithmetic of the source. `Trees`, `Stores`, `Focus` and `Contents` give the meaning: the tree that a
page store spells out (a ghost value), the place in it where an operation works, and the map it stands for.
`StoredRows` ties that map to the pages alone: it holds the rows of all leaf pages, each under the value of its first
field.
`Tables.Table` is the table as an object whose `pages` field is what the buffer pool shows and whose `held`
field is the set of latched pages. Its `log` field lists the requests made to the pool, and the invariant says
that replaying them from the pages at the start of the log gives `pages` and `held`, each request being possible
when its turn comes (`Steps.Replay`, `Tables.Table.Logged`). `PooledTables` carries such a list out on the pool,
with several guards open at a time, up to the first request that finds no frame. The descents keep the stack of held
ancestors explicit (`InsertHeld`, `DeleteHeld`): where the stack was cut, the page just below is split-safe
or delete-safe, so the loops run out of held pages only at the root.

Proofs hide the definitions they do not need; many one-line lemmas only unfold one definition where it is
wanted.

Keys are compared through an embedding into the real numbers (`Schemas.Rank`), proved to agree with the
derived order of `Key`; that order compares integers as numbers and text at the first difference
(`Schemas.KeyOrder`).

The comments on `bulk_borrow_from_right` and `bulk_borrow_from_left` speak of an equal number of entries; the
code compares bytes, and so does the model.

## Model

| member | source | states |
|---|---|---|
| `TableRuns.Run` | src/table/mod.rs:127-144 | over every run of inserts, deletes, lookups, scans and vacuums, for any key type, every answer up to the first failure is the map's and the invariant holds; only a deletion, or a vacuum of an empty table, can fail; with integer keys and a key in every internal page none fails as long as every vacuum leaves it so; the table keeps its id, schema and name |
| `TableRuns.Serve` | src/table/mod.rs:127-144 | one request: the map's answer and the map's new contents, except a deletion exactly when `DeleteFits` does not hold and a vacuum exactly when there is no row; a panic exactly when `DeletePanics` or on that vacuum |
| `InsertMethods.Insert` | src/btree/tree.rs:46-83 | a row whose first field is that of a stored row gives `DuplicateKey`, and no other does, with no page changed or allocated; otherwise the rows in the leaf pages become the old ones and this row, the map gains exactly this entry, and the invariant and the id, LSN, schema and name of the meta page are kept through any cascade of splits |
| `InsertMethods.DescendInsert` | src/btree/tree.rs:47-69 | the descent ends at the leaf that covers the key, with exactly that leaf and the held ancestors latched; where the ancestors were cut, the page below stops every split |
| `InsertMethods.SplitAndInsert` | src/btree/tree.rs:85-159 | the rows of the table become the old ones with the new row in its place, and the table is sound again |
| `InsertMethods.SplitLeafOff` | src/btree/tree.rs:91-106 | a leaf too full for a row has at least four rows and splits into two leaves, chained to the next one |
| `InsertMethods.InsertHalf` | src/btree/tree.rs:111-116 | whichever half gets the row has room for it |
| `InsertMethods.EnterSplit` | src/btree/tree.rs:118-158 | the loop over held ancestors enters the separator, splitting upwards, and runs out of ancestors only at the root |
| `InsertMethods.EnterHere` | src/btree/tree.rs:130-133 | a page with room takes the separator and the new child; the leaves stay in order |
| `InsertMethods.SplitAbove` | src/btree/tree.rs:134-156 | a full page splits, the separator from below goes to the half it belongs to, and one separator moves up |
| `InsertMethods.GrowRoot` | src/btree/tree.rs:120-129 | a split root gets a new root over both halves |
| `InsertMethods.AllocatePending` | src/btree/tree.rs:120-140 | a page allocated in the middle of a split leaves every page of the tree as it is, accounting exact |
| `InsertMethods.InsertIntoLeaf` | src/btree/tree.rs:71-73 | a leaf with room takes the row unless its key is there |
| `InsertMethods.PopFacts` | src/btree/tree.rs:118-134 | a popped ancestor is the page right above the split, and if it cannot take the separator the stack was not cut there |
| `Inserts.HeldPush` | src/btree/tree.rs:56-69 | pushing a page during the descent keeps the rule that below the cut sits the root or a page that stops splits |
| `Splitting.LeafSplitRoom` | src/page/mod.rs:268-360 | a leaf without room for a valid row has at least four rows and either half has room for it |
| `Splitting.InternalSplitRoom` | src/page/mod.rs:268-360 | the same for an internal page and a separator, with two bytes to spare |
| `Pages.SplitHalves` | src/page/mod.rs:268-360 | how much either side of the size-based split point weighs |
| `Inverses.SplitThenMerge` | src/page/mod.rs:268-383 | splitting a page and merging the halves with the returned separator gives back the page, no byte lost |
| `Lookups.Get` | src/btree/tree.rs:161-173 | `get` answers what the descent by separators finds, on any pages that spell out a tree; on a sound table that is map lookup, and the stored row with the value of the key in front, if there is one |
| `StoredRows.ContentsMeans` | src/schema/mod.rs:454-460 | the map of a table holds exactly the rows of its leaf pages, each under the integer or the text of its first field |
| `Finding.FindWf` | src/btree/tree.rs:161-173 | in a search tree the descent finds exactly the row with the key, if there is one |
| `Lookups.Route` | src/page/internal.rs:340-354 | the child found for a key covers the key, and going down to it keeps the invariant |
| `Scans.GetRange` | src/btree/tree.rs:175-216 | exactly the rows of the leaf pages that are in range and pass the filter, strictly increasing, for all bounds |
| `Scans.GetAll` | src/btree/tree.rs:218-220 | all rows that pass the filter, in order |
| `Scans.ScanLeaf` | src/btree/tree.rs:199-209 | one leaf adds exactly its rows in range, and stops exactly when a row is past the end |
| `Scans.RangeTests` | src/btree/tree.rs:333-347 | `before_start` and `past_end` together are the complement of the range |
| `Scans.RestPastEnd` | src/btree/tree.rs:203-205 | once a row is past the end, nothing later in the chain is in range |
| `DeleteMethods.Delete` | src/btree/tree.rs:222-250 | on any sound table: succeeds if and only if `DeleteFits` held, and then returns what the map held, the map loses that entry and the invariant is kept, with a key in every internal page if there was one; panics if and only if `DeletePanics`; ends in `PageFull` if and only if `FailedDelete` gives a pair, never with integer keys, and then the two keys differ and exactly the rows between them are not found; the answer is the stored row with the value of the key in front, if any, exactly that row leaves the leaf pages, and the id, LSN, schema and name of the meta page are kept in every case |
| `DeleteMethods.DescendDelete` | src/btree/tree.rs:223-240 | the descent ends at the leaf that covers the key, with exactly that leaf and the held ancestors latched; where the ancestors were cut, the page below is delete-safe |
| `DeleteMethods.Rebalance` | src/btree/tree.rs:252-330 | the ascent keeps all rows and restores the invariant; it panics exactly when an underfull page has no sibling; it ends in `PageFull` exactly when `FailedBorrow` gives the separators of a borrow that does not fit, never with integer keys, and then exactly the rows between those two are not found |
| `DeleteMethods.RebalanceRound` | src/btree/tree.rs:264-309 | with a sibling chosen, one round merges exactly when the pair fits one page, and otherwise borrows, with the outcome of `BorrowStep` |
| `DeleteMethods.SiblingMeansKeys` | src/btree/tree.rs:258-261 | the page above offers a sibling exactly when it has a key |
| `DeleteMethods.LatchPair` | src/btree/tree.rs:263-274 | the pair is latched left page first, and neither page was latched when asked for |
| `DeleteMethods.MergeStep` | src/btree/tree.rs:276-297 | merging removes the right page from the tree, the chain and the parent and puts it on the free list |
| `DeleteMethods.BorrowStep` | src/btree/tree.rs:298-308 | borrowing keeps all rows in order; it fails exactly when the parent has no room for the new separator, and then the pages spell out a tree in which exactly the rows between the old separator and the new one are not found |
| `Misrouting.BrokenFinds` | src/btree/tree.rs:300-306 | with the entries moved and the old separator in place, a lookup finds every row except exactly those between the old and the new separator |
| `Misrouting.BrokenSpelled` | src/btree/tree.rs:300-306 | the pages still spell out a tree with a correct leaf chain and exact accounting |
| `DeleteMethods.CollapseRoot` | src/btree/tree.rs:312-328 | a root without keys gives way to its only child and is freed; any other page stays |
| `DeleteMethods.HeldAfterMerge` | src/btree/tree.rs:227-260 | after a merge the page above is held still, or it was delete-safe and is not underfull, so no page but the root is left underfull |
| `DeleteMethods.RoundFacts` | src/btree/tree.rs:257-274 | in a page with a key the chosen sibling is a neighbour, and neither page of the pair is among the latched pages further up |
| `Deleting.SiblingFound` | src/btree/sibling.rs:16-36 | with at least one key the chosen sibling is the right neighbour, or the left one for the last child, with the separator between |
| `Deleting.SafeLoses` | src/page/mod.rs:246-258 | a delete-safe page that loses a key is not underfull |
| `Pages.Thresholds` | src/page/mod.rs:57-62 | the thresholds of underfull, delete-safe and split-safe pages, in bytes of entries |
| `Pages.UnderfullMerge` | src/page/mod.rs:57-66 | two underfull pages of a kind can merge, whatever separator is between them |
| `Deleting.BorrowState` | src/page/internal.rs:373-392 | the state after a borrow is sound if the separator fits; with integer keys it fits; if not, the replacement answers `PageFull` |
| `Deleting.MergeState` | src/btree/tree.rs:276-293 | the merge test on pages is the size test on the tree, and the merged pages spell out the merged tree |
| `DeleteGuards.RoomyDeleteFits` | src/btree/tree.rs:298-308 | with room for a key of the greatest size in every internal page on the way, a deletion succeeds with any keys |
| `DeleteGuards.RoomyFits` | src/btree/tree.rs:257-309 | the same for the ascent from any page |
| `Counterexamples.DeleteCanFail` | src/btree/tree.rs:300-306 | on the tree that vacuum builds of 23 rows, deleting the last key fails with the separators named: the old one, and the key of a row among the 18th to 21st |
| `Counterexamples.FailingDelete` | src/btree/tree.rs:300-306 | a table made by inserting those rows and vacuuming: deleting the last one ends in `PageFull`, and then a named row is in the table and is not found |
| `Counterexamples.TightLoad` | src/table/mod.rs:165-190 | the tree that the bulk load builds of those rows |
| `Counterexamples.RowIsLost` | src/btree/tree.rs:300-306 | if exactly the rows between those separators are not found, the named row is one of them |
| `Borrowing.BulkBorrowFromRight` | src/page/mod.rs:399-414 | for a pair that cannot merge, with a lighter left page, no step fails and the pair ends cut at the first balanced place |
| `Borrowing.BulkBorrowFromLeft` | src/page/mod.rs:431-446 | the mirror image |
| `Borrowing.BorrowOutcomeUp` | src/page/mod.rs:399-414 | the receiver ends no lighter than the donor and not underfull, both fit, the donor keeps an entry |
| `Borrowing.BorrowOutcomeDown` | src/page/mod.rs:431-446 | the mirror image |
| `Recutting.StarvedPair` | src/page/mod.rs:58-66 | an underfull page and a sibling it cannot merge with are a pair to which bulk borrowing applies |
| `Recutting.MergeSpelled` | src/page/mod.rs:363-383 | two neighbouring pages merge into the page of the joined subtree, exactly when it fits |
| `Recutting.ReplaceSpelled` | src/page/internal.rs:373-397 | replacing a separator is a replacement in the parent page, refused exactly when it does not fit |
| `Recutting.RemoveSpelled` | src/page/internal.rs:322-338 | removing a separator removes the child to its right |
| `Contents.LeafInsertContents` | src/page/leaf.rs:37-58 | a row put where the search says adds exactly one entry to the whole map |
| `Contents.LeafRemoveContents` | src/page/leaf.rs:276-286 | taking a found row out removes exactly one entry of the whole map |
| `Contents.LeafDecides` | src/page/leaf.rs:325-333 | the leaf that covers a key decides whether the table has it, and which row |
| `Chains.ChainSplit` | src/btree/tree.rs:99-107 | inserting a leaf into the doubly linked chain keeps it equal to the leaves in order |
| `Chains.ChainMerge` | src/btree/tree.rs:284-293 | removing one does too |
| `Tables.Table.Create` | src/table/mod.rs:50-91 | a new table is sound and empty; its pages are exactly a meta page with page count 2, and an empty leaf without neighbours as page 1 |
| `Tables.CreateTable` | src/table/mod.rs:50-91 | a table is made exactly when its first meta page can be written, for any valid schema and any name; it has the table id, schema and name asked for, and exactly those two pages |
| `Tables.Table.Allocate` | src/table/mod.rs:93-107 | hands out the head of the free list, or the next page number if the list is empty, a page that no one uses; accounting exact, no other page but the meta page touched, and of that no id, LSN, root, schema or name |
| `Tables.Table.FreePage` | src/table/mod.rs:109-114 | a page the tree gave up becomes the head of the free list and points to the old head, accounting exact; id, LSN, root, schema, name and page count of the meta page are kept |
| `Accounting.PopSpace` | src/page/meta.rs:91-113 | popping the head of the free list succeeds and keeps the accounting exact |
| `Accounting.PushSpace` | src/page/meta.rs:118-155 | pushing a page that left the tree succeeds and keeps the accounting exact |
| `Accounting.BumpSpace` | src/page/meta.rs:76-88 | a bumped page number was never used |
| `TableRuns.ExactAccounting` | src/table/mod.rs:260-298 | each page number in range is in the tree or on the free list exactly once, and no other is in either |
| `TableRuns.CheckSpaceAccounting` | src/table/mod.rs:260-298 | none of the assertions of the check ever fails between operations |
| `TableRuns.PagesInTree` | src/table/mod.rs:268-276 | the walk over children visits every page of the tree once |
| `Vacuuming.Vacuum` | src/table/mod.rs:201-258 | on a non-empty table: same rows in the same order, exactly the tree `LoadTree`, sound, no free page, page numbers exactly 1 to `page_count` - 1, and a key in every internal page if and only if `LoadKeyed`; on an empty one it panics; the meta page keeps its id, LSN, schema and name, and no other page has an LSN |
| `Vacuuming.PackLeaves` | src/table/mod.rs:213-230 | leaves within budget, numbered from 1, that hold the rows in order, cut where the next row does not fit |
| `Vacuuming.LinkLeaves` | src/table/mod.rs:232-237 | each leaf points to its neighbours in the list |
| `Vacuuming.BuildInternalLevel` | src/table/mod.rs:165-190 | one level of well-formed pages over the level below, cut where the next separator does not fit; all have a key if and only if the last one does |
| `Packing.UpShrinks` | src/table/mod.rs:244-246 | each level of two or more is strictly shorter than the one below, so the loop ends |
| `Packing.CutsInPairs` | src/table/mod.rs:165-190 | every page of a level but the last takes at least two children |
| `Packing.IntLoadKeyed` | src/table/mod.rs:165-190 | with integer keys every page takes 194 children, so the condition is one on the number of leaves at each level: met up to 194, not met at 195 |
| `Counterexamples.LoadCanLeaveNoKey` | src/table/mod.rs:181-187 | 21 to 24 rows with keys of the greatest size give a page without a key |
| `Counterexamples.ManyRowsFit` | src/table/mod.rs:181-187 | 21 valid rows of that kind |
| `Counterexamples.ManyLoad` | src/table/mod.rs:181-187 | the tree their bulk load builds: five leaves under one page, the sixth under a page without a key |
| `Counterexamples.PanickingDelete` | src/btree/tree.rs:261-261 | inserting those rows, vacuuming and deleting the last one ends in the panic for a missing sibling |
| `BufferPools.BufferPool.constructor` | src/bpm/manager.rs:31-44 | an empty pool shows the disk |
| `BufferPools.BufferPool.NewPage` | src/bpm/manager.rs:47-74 | refuses exactly a cached id, exactly when no frame is free and all are pinned, or exactly when the victim cannot be written; otherwise the page's view is the new page; no other view changes, but for an evicted page that the reader refuses; no guarded frame and no mapping of a guarded page changes |
| `BufferPools.BufferPool.Checkout` | src/bpm/manager.rs:77-141 | a guard gets the page asked for, one more pin on its frame, its reference bit set; no view changes, but for an evicted page that the reader refuses; no guarded frame and no mapping of a guarded page changes; each failure under its exact condition |
| `BufferPools.BufferPool.LoadPage` | src/bpm/manager.rs:183-211 | a page read from disk is cached as it is, whatever has to be evicted; it fails exactly when the page is missing, unreadable, or no frame can be had |
| `BufferPools.BufferPool.ReadPage` | src/bpm/manager.rs:184-188 | a page is read exactly when the disk holds it whole and decodable, and carries its own id |
| `BufferPools.BufferPool.Cache` | src/bpm/manager.rs:190-210 | a page put into a claimed frame is shown from then on, and nothing under a guard moves |
| `BufferPools.BufferPool.Fill` | src/bpm/manager.rs:196-210 | exactly one frame, one mapping, one pin and one view change |
| `BufferPools.BufferPool.ClaimFrame` | src/bpm/manager.rs:144-179 | no view changes, but for an evicted page that the reader refuses; there is no frame exactly when none is free and all are pinned, and no writable victim exactly when the pool is stuck; frames change in their reference bits only, guarded pages stay mapped, and a claimed frame has no guard |
| `BufferPools.BufferPool.Evict` | src/bpm/manager.rs:153-177 | the victim leaves the page table exactly when it is clean or can be written; its view is then what is left of it on disk, all of it unless the reader refuses it, and no other view changes |
| `BufferPools.BufferPool.WriteBack` | src/bpm/manager.rs:160-173 | a dirty victim is written exactly when it can be, with no view changed |
| `BufferPools.BufferPool.Write` | src/bpm/guards.rs:107-121 | the guarded frame holds what was written and is dirty, no other frame changes; the view of that page becomes it, no other changes |
| `BufferPools.BufferPool.Drop` | src/bpm/guards.rs:66-83 | one guard and one pin fewer on this frame, nothing else in any frame and no view changes |
| `BufferPools.BufferPool.FlushAll` | src/bpm/manager.rs:235-249 | succeeds exactly when every dirty page can be written, and then the disk holds everything the pool shows, but for pages the reader refuses; only dirty bits change, and no view |
| `BufferPools.BufferPool.SwapFile` | src/bpm/manager.rs:251-264 | fails exactly when some dirty page cannot be written, and panics in the disk layer exactly when only a new page cannot; otherwise the pool shows exactly the new pages, but for those the reader refuses; on failure no view has changed |
| `Pools.Unmap` | src/bpm/manager.rs:151-178 | evicting an unpinned frame whose page is on disk changes no view, but for its page if the reader refuses it |
| `Pools.FlushFrame` | src/bpm/manager.rs:166-173 | writing a mapped page to disk keeps the invariant and every view |
| `Pools.Install` | src/bpm/manager.rs:196-210 | mapping a claimed frame keeps frames, page table and free list a partition |
| `PoolRuns.Run` | src/bpm/manager.rs:47-249 | over every run of creating, fetching, reading, writing, dropping and flushing pages of any kind, with any number of guards held at a time, the answers are those of a map with latches in which as many pages can be held as there are frames; the only exceptions are a page that cannot be written, which blocks a frame and the flush, and a page the reader refuses, which can be lost while nobody holds it |
| `PoolRuns.Session` | src/bpm/manager.rs:31-249 | the same from a newly opened pool of any size over any disk whose pages carry their own ids |
| `PoolRuns.FullIsExhausted` | src/bpm/manager.rs:144-159 | the pool has no frame to give exactly when the client holds as many pages as there are frames |
| `PoolRuns.PinnedIsHeld` | src/bpm/manager.rs:215-232 | a cached page is pinned exactly when the client holds a guard on it |
| `PoolRuns.StuckIsBlocked` | src/bpm/manager.rs:144-179 | the pool is stuck with its victim only if the client sees a page it does not hold that cannot be written |
| `PoolRuns.SaveableIs` | src/bpm/manager.rs:235-249 | no frame stops a flush exactly when every page the client sees can be written |
| `Counterexamples.LosingEviction` | src/bpm/manager.rs:144-179 | in a pool of one frame, a meta page with a column name of 1011 bytes is created, dropped and evicted by another page, and then cannot be read |
| `PooledTables.FetchWrite` | src/bpm/manager.rs:101-121 | on a pool that shows a page store with some pages latched, fetching another latches it and gives the page of the store, or finds no frame exactly when as many pages are latched as there are frames |
| `PooledTables.Put` | src/bpm/guards.rs:107-121 | writing an encodable page through a guard changes the store at that page and nowhere else |
| `PooledTables.Release` | src/bpm/guards.rs:74-83 | dropping a write guard unlatches its page and changes no page |
| `PooledTables.NewPage` | src/bpm/manager.rs:47-74 | creating an encodable page the store has not seen adds it, latched, or finds no frame exactly when as many pages are latched as there are frames |
| `PooledTables.PerformAll` | src/bpm/manager.rs:47-121 | a list of possible requests is carried out to its end exactly when fewer pages are latched than there are frames whenever a frame may be needed; the pool shows the replayed state either way |
| `PooledTables.Carry` | src/bpm/manager.rs:47-121 | what a table has done since its log began, done on the pool, leaves the pool showing the table's pages with its latches |
| `PooledTables.InsertThrough` | src/btree/tree.rs:46-159 | an insert over the pool: the map's answer, and the pool shows the new pages with no guard left, exactly when there are frames enough |
| `PooledTables.DeleteThrough` | src/btree/tree.rs:222-330 | a delete over the pool, whether it goes through or not |
| `PoolRuns.LastWriteWins` | src/bpm/manager.rs:47-249 | after a run, a page is the last one written under its id, unless it was found unreadable since, or what was there before |
| `Eviction.ClockEvictor.FindVictim` | src/bpm/eviction.rs:12-45 | no victim exactly when all frames are pinned; otherwise the first idle frame in clock order, or if there is none the first unpinned one; the hand stops behind it and exactly the reference bits it passed are cleared |
| `Eviction.ClockEvictor.Turn` | src/bpm/eviction.rs:14-41 | one turn stops behind the first wanted frame, and clears exactly the marks of the unpinned frames on the way |
| `Eviction.Replacer.FindVictim` | src/bpm/eviction.rs:53-65 | the first unpinned frame in clock order, if any, and the hand stops behind it |
| `Eviction.FullSweep` | src/bpm/eviction.rs:14-29 | after one turn no unpinned frame is marked referenced |
| `CodecMethods.AsRawPage` | src/page/codec.rs:291-311 | refuses exactly the pages that are not proper and names the first fault; the bytes are the page as laid out, entries packed from the end, zeros between, the free space what is left; they are read back as the same page, for any checksum |
| `Spelling.WrittenIs` | src/page/codec.rs:176-289 | a written page has its tag, id, LSN, checksum, links, count, slots and entries where the format puts them, even a meta page that the reader will refuse |
| `Spelling.WrittenPacked` | src/page/codec.rs:201-289 | each entry ends where the one before it begins, nothing else is written, and what is left is the free space |
| `Spelling.EncodableMeans` | src/page/invariants.rs:13-75 | the pages that can be written, with all limits in bytes |
| `CodecMethods.WriteSlots` | src/page/codec.rs:201-259 | slots upward and data downward end in place and never cross |
| `CodecMethods.Deserialize` | src/page/codec.rs:21-167 | accepts exactly the proper pages that the bytes are laid out as, and only pages that can be written and come back; a wrong checksum and then an unknown tag are refused as such |
| `Spelling.ParsedIs` | src/page/codec.rs:21-167 | what is read off the bytes is what the layout says they hold |
| `Spelling.IsParsed` | src/page/codec.rs:21-167 | a proper page that the bytes are laid out as is read off them |
| `CodecMethods.ReadLeaf` | src/page/codec.rs:86-104 | the rows behind the slots, refused exactly when a range is bad or a row does not use up its slot |
| `CodecMethods.ReadInternal` | src/page/codec.rs:105-126 | the children and the keys behind the slots, refused likewise |
| `PageCodec.BodyRead` | src/page/codec.rs:85-155 | whatever body is read, its rows, names and ids are within what can be written and read back |
| `CodecMethods.ReadSlotRanges` | src/page/mod.rs:492-527 | accepts exactly the slot arrays whose ranges are non-empty, in the data area and pairwise disjoint |
| `CodecMethods.NeighboursSuffice` | src/page/mod.rs:515-524 | the check of neighbours in sorted order is the check of all pairs |
| `CodecMethods.DecodeSlots` | src/page/mod.rs:530-541 | every slot decoded in order, each used up exactly |
| `CodecMethods.CheckInvariants` | src/page/invariants.rs:13-75 | finds nothing wrong exactly with the pages that satisfy the page invariant, and otherwise reports the first fault and where it is; the limit on the name is never met |
| `PageCodec.RoundTrip` | src/page/codec.rs:21-311 | what is written is parsed as the same page, except exactly a meta page with a column name too long for the reader |
| `PageCodec.AcceptedIsCanonical` | src/page/codec.rs:85-166 | whatever bytes are accepted give a page that can be written again and read back |
| `PageCodec.LeafRoom` | src/page/mod.rs:68-84 | header, slots and data of a leaf fit the page, and its row count is within the reader's limit |
| `PageCodec.InternalRoom` | src/page/mod.rs:68-84 | the same for an internal page |
| `PageCodec.WrittenRanges` | src/page/codec.rs:201-259 | the slots written are in the data area and do not overlap |
| `Counterexamples.LongNameIsRefused` | src/schema/mod.rs:336-364 | a column name of 1011 bytes is written and not read back; one of 1010 is |
| `Storing.TableEncodable` | src/page/invariants.rs:13-75 | every page of a sound table can be written |
| `ValueCodec.ValueBack` | src/schema/mod.rs:72-138 | a value is read back exactly when it is not too long |
| `Spelling.ValueRead` | src/schema/mod.rs:72-138 | a value that is read has tag 0 to 4, and behind it the number in two's complement, the bits of the float, text after its length, or 0 or 1 |
| `Spelling.ValueParsed` | src/schema/mod.rs:72-138 | bytes of that form are read as that value, and exactly they are used up |
| `ValueCodec.RowBack` | src/schema/mod.rs:203-234 | a row is read back, with no byte left over |
| `ValueCodec.KeyBack` | src/schema/key.rs:47-58 | a key is read back, with no byte left over |
| `ValueCodec.SchemaBack` | src/schema/mod.rs:569-590 | a schema is read back exactly when no column name is too long |
| `Spelling.SchemaSpelled` | src/schema/mod.rs:330-364 | a schema is written as its column count, then for each column type tag, nullability and name |
| `Bytes.Utf8Means` | src/schema/mod.rs:91-99 | text is accepted exactly when it is the bytes of some Unicode scalar values |
| `Schemas.ValidateRow` | src/schema/mod.rs:510-544 | a row passes exactly when it has as many fields as columns, at most 1013 bytes with its slot, an integer or at most 1001 bytes of text in front, and every column takes its field; each error under its exact condition, a field error for the first column that does not take its field; the limit on a field is never met |
| `Schemas.ValidRowMeans` | src/schema/mod.rs:510-544 | a valid row, field by field: null only where allowed, otherwise the type of the column |
| `Schemas.SchemaMeans` | src/schema/mod.rs:487-503 | one to 255 columns make a schema exactly when the first is an integer or text and not nullable; each error under its exact condition |
| `Schemas.KeyOfRow` | src/schema/mod.rs:454-460 | the key of a row is the integer or the text of its first field, and other rows have none |
| `Schemas.KeyLess` | src/schema/key.rs:7-11 | the derived order of keys is an order embedded in the reals |
| `Schemas.KeyOrder` | src/schema/key.rs:7-11 | integers compare as numbers, before all text; text compares at the first different byte, a proper prefix first |
| `Schemas.RankInjective` | src/schema/key.rs:7-11 | the order is total |

## Left out

- DeleteMethods.Delete: after a panic the pages are stated to be sound, but not what poisoned latches and an unwinding thread do.
- Tables.Table: its page store is a map, and its requests reach the pool afterwards, from the log; that reading and deciding happens on pages the pool shows at that moment follows from `PooledTables.PerformAll`, which keeps the two equal after every request.
- PooledTables.InsertThrough: when a request finds no frame, the source gives up in the middle of the operation; the pool then shows the pages of the requests before it (`PooledTables.PerformAll`), and what the tree looks like there is not stated. `AllTyped`, that numbers stay within 32 bits and no column name is too long for the reader, is a hypothesis on the log.
- PooledTables.DeleteThrough: the same.
- PooledTables.Put: asks for pages that can be written and read back, which is what a table puts; `BufferPools.BufferPool.Write` takes any page.
- PooledTables.NewPage: the same.
- BufferPools.BufferPool.Checkout: `fetch_read` and `fetch_write` are one method with a ghost flag; the `WrongPage` branch and its leaked pin are unreachable because every page on disk carries its own id, an assumption on the first disk that every step preserves.
- BufferPools.BufferPool.SwapFile: the pages have distinct ids, and no guard is alive, as the source asserts. After the panic of the disk layer, `Err(DiskPanic)` here, the pool's lock is poisoned in the source.
- PoolRuns.Run: a request that would wait for a latch the client holds itself is answered `Refused`; in the source it never returns. Which page is cached, and hence whether creating a page again is refused, is left open where the client cannot know it.
- CodecMethods.Deserialize: of the errors, those for a wrong checksum and an unknown tag have their exact condition; the others are coarser than in the source and carry no payload.
- Vacuuming.Vacuum: the new pages replace the store as a whole; the order in which they are listed for the disk is not kept.
- Lookups.Get and Scans.GetRange: read the page store directly; their read latches are not modelled.
- Page operations that edit a page in place are functions from the old page to the new one; pages are values that are moved into and out of frames, so aliasing between two references to one page is not modelled.
- Concurrency: operations run one at a time. Linearizability under concurrent writers, memory ordering, lock poisoning, the retry loop of `get_root_write`, and the race between `flush_all` and eviction are not modelled.
- Overflow of 32-bit page counts and pin counts.
- `AlreadyExists` in `Table::create`, `Table::open` and `close`, `Table::size` and the getters of the meta page: `create` is modelled from an empty file on, and `open` only reads the meta page.
- Disk files, `fsync` and rename (`src/disk`); the disk is a map from page ids to byte images that never fails to read or write. The file offset is that of the page number alone, so one file holds one table.
- The checksum is an arbitrary function of the other bytes; CRC-32 itself is not modelled.
- The varint reader has no limit on the number of bytes and does not truncate to 64 bits.
- Floats are 64 opaque bits; text is a sequence of bytes that is well-formed UTF-8.
- The constructors of `Column` refuse an empty name; here a column is a value with any name.
- LSN order (`set_lsn`): nothing logs yet. Each request of a table leaves the LSN of a page or sets it to zero (`Steps.Possible`); the codec carries it.
- `leaf_records_from`: no operation of the tree or the table calls it.
- `filter_fn`, raw string parsing, printing and the REPL: text handling at the edge of the program; scans take any filter.
