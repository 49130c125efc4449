# Verification of the SHRD flash translation layer

A Dafny model of SHRD, a page-mapped flash translation layer (FTL) with a
demand-paged mapping table, several garbage collectors and a "temporary write,
then remap" protocol driven by a log on the host. `dafny verify dfyconfig.toml`
checks the whole project.

## Contents

| files | what they model |
|---|---|
| Layout, SetSizes, Addresses | sizes and markers; counting; the encoding of places in mapping-table entries |
| RbModel, RbEraseModel, RbUnlinkModel, RbTree | the red-black tree of the map log: a tree with parent links in an array of records, its rotations, insertion and erasure repair |
| MapLog, LogSet | the map log of a bank as a finite map, and the logs of all banks |
| MapState, MapGc, MapStore, BankedStore | the log-structured store of map pages with its own garbage collection |
| MapCache, MapTable | the LRU write-back cache of map pages, and the flat table that `get_vpn` and `set_vpn` work on |
| FlashState, FlashDevice, SlotMapping | the mapped places, the programmed pages with their spare areas, valid bits and valid counts |
| CircularLists, BlockPartition | the circular block lists, and the partition of a bank's blocks under the steps that move them |
| BankLaw, BankSteps | the law of one bank's blocks between any two operations, and the changes that keep it |
| GcModel, GcSpace, VictimChoice, Forecast, GarbageCollector | `garbage_collection`, `inter_GC`, `get_vt_vblock`, `assign_new_write_vpn` and `assign_new_write_vpn_RW`; what `inter_GC` leaves as a function of the valid counts |
| BufferState, BufferFlush, BufferRemap, BlockLists, HostLaw, TempRecords, HostWriter | `write_page` with its write buffers and allocations, `__do_remap`, the move of log blocks to the data list, and the remap address that goes with each temporary page |
| IncModel, IncLaw, IncCollector | incremental garbage collection interleaved with host overwrites, remaps and writes |
| Epochs | the order of journal remaps and journal temporary writes |
| HostLog | the host's ring log, redirection map and remap commands |
| HilQueues | the buffer queues between host and FTL |

Code that updates state in place is a class whose methods are proved against
functions of its state. Tree and list links are array indices, as the records
of the source live in arrays. A ghost `Path` and `Tree` describe the focus of a
walk through the red-black tree. In the collectors and the host writer a mapping
entry is a `Place` (unmapped, a half page of flash, a write-buffer slot);
`Addresses` proves that places and table entries correspond one to one and that
table updates commute with this, and `MapTable` that the table behaves like a
flat array, so that `get_vpn` and `set_vpn` are array accesses there.

Three classes hold the state of a bank: `Collector` (allocation and emergency
collection), `Writer` (all banks with their write buffers) and `IncCollector`
(one bank with victims and collection buffer). Each has a constructor `Open`
that builds the state `RSP_Open` leaves, and an invariant that every method
restores, so nothing is assumed of blocks, cursors or bitmaps at a call. The
writer and the incremental collector allocate through a `Collector` that they
set up on the bank's own tables, lists and cursors; the code has one set of
these per bank. Each method that moves blocks between lists says so as a `Step`
of `BlockPartition` on the lists it keeps, whatever the bank's other lists are:
`GarbageCollection` (Collect), `Round` (the round of `RoundOf`),
`AssignNewWriteVpn` and `AssignNewWriteVpnRW` (AllocData, AllocRW),
`Writer.MoveIfDone` and `IncCollector.LogDone` (RemapDone), `ChooseVictim`
(Choose), `NextGcPage` (OpenGc), `EraseVictimBlock` (Erase, EraseRefill) and
`MapBank.Write` (SwitchMap).

`RSP_ASSERT` stops the program, so every such assertion is proved never to fail,
stated as a precondition, or, in the collectors that look for a victim or a
block themselves, modelled: the method then answers `stopped`, and its contract
says at which assertion. THIS_CORE is a parameter in {0, 1}.

## Where the code does not do what it should

Each of these is proved with the exact condition.

- `inter_GC` makes its victim the empty block whenever the write pointer is in
  GC_BLK, also if GC_BLK was the write pointer's block on entry, which
  incremental collection can bring about. A round loses the old GC_BLK, which is
  then in no list, if and only if the write pointer is in it and the copies do
  not open it; behind a full block, if and only if the victim counts nothing
  (`RoundKeeps`, `RunPartition`, `Collector.Round`, `Collector.InterGc`; a lawful
  bank in which a round loses its block: `LosesEmptyBlock`).
- `assign_new_write_vpn_RW` and `assign_new_write_vpn`: when the block taken is
  the very block that has just been filled, the write pointer goes to the first
  page of the block behind it, which nobody has allocated (`NextVpnInBlock`; a
  bank in which that block holds data: `RetakesFilledBlock`). For temporary pages
  this happens if and only if the block just filled is the head of the free list
  or, with an empty one, the block `inter_GC` frees, which `Forecast.Freed`
  computes from the lists, the cursors and the valid counts (`Retakes` in
  `Collector.AssignNewWriteVpnRW`); otherwise the page is an erased page of an
  allocated block.
- `assign_new_write_vpn` hands out the page under the write pointer if nothing
  has been written yet; `inter_GC` for temporary pages may have programmed that
  page (`MayMiss` in `Collector.AssignNewWriteVpn`; a lawful bank whose
  programmed page is handed out: `HandsOutProgrammed`).
- A page that has been remapped in a write buffer and is given up there leaves a
  slot with no requested address but still with a remap address. Erasing a block
  does not clear its valid bits, so if the slot is written over a bit left over,
  the collector that goes by the bitmap takes it for a live page. The bitmap stays
  exact if and only if no such slot meets such a bit (`IncLaw.CleanNeeded`,
  `IncCollector.HostWrites`; a buffer written over such a bit, and the test of
  the bitmap that then takes a page mapped nowhere for the live page of address
  0: `TakesDeadForLive`).
- `write_page` does not change the remap address of a page it overwrites in a
  write buffer. After a temporary page has been written, the page records the
  remap address of that write if and only if it was not in a buffer or recorded
  that address already (`AgreedAfterWrite`, `Writer.WritePage`). A remap to any
  other address than the one recorded leaves a home page that collection takes
  for dead (`PairNeedsRecord`, `Writer.RemapOne`; from RSP_Open on, a page
  written with one remap address, overwritten with another and remapped to that:
  `KeepsFirstHome`).
- `get_map_page` with a single cache slot links the slot to itself and the next
  walk does not end (`SingleSlotLoops`); with two or more slots the chain is
  right, which the cache's constructor asks for.
- The host's `__do_remap`, when the window holds no valid page, moves the start
  of the log one slot too far; a valid page in that slot is never remapped
  (`RemapClean`, `RingLog.DoRemap`; a log in which it happens: `StepsOverPage`).
- A header of 128 slots written where there is room for exactly 128 before the
  start of the log makes the full log look empty (`RingLog.GenWorkload`; a log
  in which it happens: `FullLooksEmpty`).
- `HIL_ReadLPN` does not look at the bank queues, so a read can pass a write
  that waits there (`Hil.ReadLPN`, `ReadPassesWrite`).

## Model

| member | source | states |
|---|---|---|
| Addresses.RoundTrip | ATLWrapper.cpp:1603 | every existing place has a table entry, and reading the entry back as the code does gives the place |
| Addresses.NandRoundTrip | ATLWrapper.cpp:40-51 | the channel, bank, block, plane, page and half macros invert the address formula |
| Addresses.BufferRoundTrip | ATLWrapper.cpp:1370-1382 | the division chain of the write-buffer address inverts its composition |
| Addresses.EveryEntry | ATLWrapper.cpp:48-51 | every legal entry denotes a place that is written down as that entry |
| Addresses.BlockOfEntry | ATLWrapper.cpp:40-51 | the bank and the block are read off a flash address by division |
| Addresses.SetPlace | ATLWrapper.cpp:2023-2056 | updating a table of entries is updating the table of places, and equal entries are equal places |
| GcMapLog.SignedDiffOrder | ATLWrapper.cpp:3783-3827 | the sign of the 32-bit difference orders two keys exactly when they are less than 2^31 apart |
| RbTree.Links.RotateLeft | ATLWrapper.cpp:3447-3468 | the link updates realise a left rotation of the tree, everything else in place |
| RbTree.Links.RotateRight | ATLWrapper.cpp:3470-3491 | the same for the right rotation |
| RbTree.Links.InsertStepLeft | ATLWrapper.cpp:3501-3527 | one loop round below a left child repairs or lifts the red conflict, keeping the sequence of nodes |
| RbTree.Links.InsertStepRight | ATLWrapper.cpp:3527-3553 | the mirrored round |
| RbTree.Links.InsertColor | ATLWrapper.cpp:3493-3556 | from a red node of fitting black height a red-black tree results with the same sequence and set of nodes, links consistent; the loop ends |
| RbTree.Links.LiftSiblingLeft | ATLWrapper.cpp:3567-3573 | a red sibling is rotated up; the deficit stays where it was, below a black sibling |
| RbTree.Links.TurnNephewLeft | ATLWrapper.cpp:3583-3589 | the inner red nephew becomes an outer one, black heights kept |
| RbTree.Links.SettleLeft | ATLWrapper.cpp:3590-3595 | the final rotation pays the deficit: the whole tree is red-black |
| RbTree.Links.PassUp | ATLWrapper.cpp:3574-3580 | with two black nephews the deficit moves to the parent |
| RbTree.Links.EraseStepLeft | ATLWrapper.cpp:3564-3597 | one round of the erase repair, left case: finished, or the deficit strictly higher or at a red node |
| RbTree.Links.EraseStepRight | ATLWrapper.cpp:3598-3631 | the right case |
| RbTree.Links.EraseColor | ATLWrapper.cpp:3558-3635 | a tree one black node short at the given place becomes red-black with the same nodes in the same order |
| RbTree.Links.Successor | ATLWrapper.cpp:3650-3652 | the left walk from the right child reaches the in-order successor, with its path |
| RbTree.Links.Transplant | ATLWrapper.cpp:3646-3681 | the successor takes the node's place, links and colour; only the node itself leaves the sequence |
| RbTree.Links.Unlink | ATLWrapper.cpp:3642-3697 | a node with at most one child is replaced by that child |
| RbTree.Links.Erase | ATLWrapper.cpp:3637-3702 | erasing a node leaves a red-black tree of the other nodes in order; the erased record keeps its links and entry |
| RbTree.Links.LinkNode | ATLWrapper.h:616-622 | rb_link_node hangs a red leaf into the hole found |
| RbModel.LiftedOk | ATLWrapper.cpp:3505-3512 | recolouring with a red uncle keeps balance and moves the conflict two levels up |
| RbModel.LoweredOk | ATLWrapper.cpp:3524-3526 | the outer rotation of an insertion removes the conflict and keeps black heights |
| RbModel.RotLeftRep | ATLWrapper.cpp:3447-3468 | rotated links represent the rotated tree |
| RbModel.RotRightRep | ATLWrapper.cpp:3470-3491 | rotated links represent the rotated tree |
| RbModel.PlugOk | ATLWrapper.cpp:3493-3556 | a subtree with the black height of its hole and no conflict makes a red-black tree |
| RbEraseModel.SettledOk | ATLWrapper.cpp:3590-3595 | the settled tree is red-black as a whole |
| RbEraseModel.OuterRedOk | ATLWrapper.cpp:3583-3589 | turning the nephew keeps the deficit and makes the outer nephew red |
| RbEraseModel.PassUpOk | ATLWrapper.cpp:3574-3580 | painting the black sibling red moves the deficit to the parent, order and nodes kept |
| RbUnlinkModel.TransplantRep | ATLWrapper.cpp:3654-3681 | the transplanted links represent the tree with the successor renamed into the node's place |
| RbUnlinkModel.TransplantBalance | ATLWrapper.cpp:3662-3701 | what is left at the successor's old place needs repair exactly by the successor's colour |
| RbUnlinkModel.TransplantSeq | ATLWrapper.cpp:3646-3681 | the sequence of nodes loses the erased one only |
| GcMapLog.MapLog.constructor | ATLWrapper.cpp:174-179 | an empty log with a record for each lpage of a superblock |
| GcMapLog.MapLog.Search | ATLWrapper.cpp:3783-3799 | finds the node of a page number if and only if it is in the map |
| GcMapLog.MapLog.Descend | ATLWrapper.cpp:3803-3822 | the descent ends at an equal key or at the one hole where the key belongs |
| GcMapLog.MapLog.Insert | ATLWrapper.cpp:3801-3827 | the log as a map is updated at the key, also when an equal key is first erased and the insertion retried |
| GcMapLog.MapLog.Hang | ATLWrapper.cpp:3824-3826 | linking and recolouring put the new node into the sequence at the hole |
| GcMapLog.MapLog.EraseEntry | ATLWrapper.cpp:3637-3702 | the map loses the key; if the node was the first, its stale record still leads to the new first node |
| GcMapLog.MapLog.Remove | ATLWrapper.cpp:3829-3835 | the map loses exactly the given key |
| GcMapLog.MapLog.Set | ATLWrapper.cpp:3837-3846 | the map is updated at the key, using the record numbered by the page's offset |
| GcMapLog.MapLog.FirstEntry | ATLWrapper.cpp:3707-3717 | the first node holds the least key; there is none exactly for the empty map |
| GcMapLog.MapLog.First | ATLWrapper.cpp:3707-3717 | returns the first node of the order, NULL for the empty tree |
| GcMapLog.MapLog.Next | ATLWrapper.cpp:3731-3757 | the in-order successor of a live node; for a first node just erased, the first node of the remaining tree |
| GcMapLog.EraseMinStale | ATLWrapper.cpp:3637-3702 | the links left in an erased minimum lead to the true successor |
| GcMapLog.LoneRight | ATLWrapper.cpp:3731-3757 | a minimum's right subtree is at most one node, which follows it |
| GcMapLog.LinkedResult | ATLWrapper.cpp:3801-3827 | a key hung at its hole keeps the order and extends the map by its entry |
| GcMapLog.NarrowLeft | ATLWrapper.cpp:3805-3822 | going left keeps the key between its neighbours on the path |
| GcMapLog.NarrowRight | ATLWrapper.cpp:3805-3822 | going right keeps the key between its neighbours on the path |
| GcMapLog.NotThere | ATLWrapper.cpp:3783-3799 | an empty link at the end of the descent means that the key is not in the tree |
| LogSet.Logs.GetMapLog | ATLWrapper.cpp:3849-3868 | the first bank whose log holds the page, or none |
| LogSet.Logs.Forget | ATLWrapper.cpp:2034-2043 | the page's entry leaves whichever log holds it, all other entries stay |
| LogSet.Logs.Set | ATLWrapper.cpp:3837-3846 | one bank's log is updated, the others are not |
| MapState.FullBlocks | ATLWrapper.cpp:395-406 | if all blocks but one were full, there would be as many live map pages as they hold |
| MapState.Pigeonhole | ATLWrapper.cpp:395-406 | some block other than the spare one has fewer than PAGES_PER_BLK live pages |
| MapState.LayoutRoom | ATLWrapper.h:65-70 | for any number of map entries and banks the layout macros leave the room the pigeonhole needs |
| MapState.WrittenOk | ATLWrapper.cpp:527-593 | a committed write keeps all tables consistent and changes only the content of the page written |
| MapState.WrittenCounted | ATLWrapper.cpp:532-535 | the valid counts are again the numbers of live pages |
| MapState.AdvancedReady | ATLWrapper.cpp:551-566 | moving to the next page of the run, which is unprogrammed, changes no content |
| MapGc.CopyOk | ATLWrapper.cpp:408-473 | copying one live page keeps every page's content and the copy count |
| MapGc.SkipOk | ATLWrapper.cpp:411-421 | a page nobody maps needs no copy |
| MapGc.AllMoved | ATLWrapper.cpp:474-475 | the loop may stop at the counted number of copies: no live page is left |
| MapGc.ReclaimedOk | ATLWrapper.cpp:478-525 | after the victim is given back the bank is ready for a write and holds the same pages |
| MapGc.ReclaimedPlaced | ATLWrapper.cpp:484-523 | the switch with a free block keeps map blocks and free blocks distinct and the spare block erased |
| MapStore.MapBank.constructor | ATLWrapper.cpp:206-229 | after RSP_Open every map page reads as VC_MAX words |
| MapStore.MapBank.Read | ATLWrapper.cpp:343-383 | the stored page, or VC_MAX words if none is |
| MapStore.MapBank.Write | ATLWrapper.cpp:385-593 | collects exactly if no block is left and the page behind the pointer would leave its block; then the victim is the first block with the least count, the new spare block, and the page goes behind the copies; otherwise it goes to the next page of the run; the bank's pages change at the given one only; the lists stay, or a map block and the head of the free list change places |
| MapStore.MapBank.FindVictim | ATLWrapper.cpp:395-406 | the first of the blocks with the least count, which is below PAGES_PER_BLK and not that of the spare block |
| MapStore.MapBank.Collect | ATLWrapper.cpp:395-525 | the victim is the first block with the least count and the new spare block; all pages are kept, the pointer is behind the copies, and the victim changes places with the head of the free list if there is one |
| MapStore.MapBank.CopyLive | ATLWrapper.cpp:407-476 | all live pages of the victim are copied to consecutive pages of the spare block, from its first one on |
| MapStore.MapBank.CopyPage | ATLWrapper.cpp:408-473 | one round of the copy loop |
| MapStore.MapBank.Reclaim | ATLWrapper.cpp:478-525 | the new block, count, list and erasure state |
| MapStore.MapBank.Commit | ATLWrapper.cpp:527-593 | the new table, inverse table, count and flash state |
| BankedStore.Store.Read | ATLWrapper.cpp:343-383 | the page of the entry's bank |
| BankedStore.Store.Write | ATLWrapper.cpp:385-393 | the store as one array of pages changes at one page, which is an entry of the bank the page belongs to |
| MapCache.SingleSlotLoops | ATLWrapper.cpp:1945-1954 | with one slot the code's link update leaves no finite chain |
| MapCache.Loaded | ATLWrapper.cpp:1870-1893 | a page loaded into a new or clean slot shows the same table |
| MapCache.PageCache.constructor | ATLWrapper.cpp:317-325 | an empty cache shows what is stored |
| MapCache.PageCache.Find | ATLWrapper.cpp:1851-1864 | the slot of the page with its predecessor, or the last two slots of the chain |
| MapCache.PageCache.GetMapPage | ATLWrapper.cpp:1846-1977 | a cached page stays in its slot; any other goes to the next empty slot or, if there is none, replaces the least recently used page, which is written back if it is dirty and no other is; writes and remaps (SW, RW, JN, JN_remap, RW_remap) make the slot the first of the chain, the others keeping their order; collection (IntraGC, InterGC) leaves the chain, but for a slot that was empty |
| MapCache.PageCache.FillNew | ATLWrapper.cpp:1870-1893 | the next empty slot is loaded and becomes the most recently used |
| MapCache.PageCache.FillOldest | ATLWrapper.cpp:1894-1954 | the last slot is written back if dirty, and nothing else is, reloaded and, except for collection, moved to the front |
| MapCache.PageCache.Evict | ATLWrapper.cpp:1896-1926 | write-back of a dirty slot and its reload keep the table shown, the other slots and the other stored pages |
| MapCache.PageCache.Touch | ATLWrapper.cpp:1959-1974 | the slot becomes the first of the chain, the others keeping their order |
| MapCache.NoReorder | ATLWrapper.cpp:1945-1974 | a further lookup by collection keeps the chain there was as its end and, if the cache is full, every cached page but the one in the last slot |
| MapCache.PageCache.Flush | ATLWrapper.cpp:3168-3184 | afterwards no slot is dirty and flash holds the whole table; the slots and their order stay |
| MapTable.MapTable.constructor | ATLWrapper.cpp:317-331 | a table of VC_MAX |
| MapTable.MapTable.GetVpn | ATLWrapper.cpp:1984-2018 | returns the table's entry and leaves the table as it is, whatever is evicted, written back or collected; a page in a map log does not touch the cache, any other is looked up there in the map page it belongs to, under the caller's flag |
| MapTable.MapTable.SetVpn | ATLWrapper.cpp:2023-2056 | the flat table changes at the given page only; its word of its map page is looked up under the caller's flag, changed and marked dirty |
| MapTable.MapTable.SetMapLog | ATLWrapper.cpp:3837-3846 | a page of the bank moves to a page of the block written to: one update of the flat table |
| MapTable.MapTable.OpenTarget | ATLWrapper.cpp:2704-2718 | before another block is written to, the bank's log is emptied and the table stays, as does the order of the cache's slots |
| MapTable.LogRoom | ATLWrapper.cpp:3837-3846 | no other bank logs a page mapped into this bank, and the record of an address nobody is mapped to is free |
| MapTable.MapTable.FlushMapLog | ATLWrapper.cpp:3870-3884 | visits each entry of the log once in ascending order, empties the log and leaves the table unchanged; the chain of the cache stays as the end of the new one, and a full cache is read through its last slot |
| MapTable.MapTable.FlushEntry | ATLWrapper.cpp:3875-3882 | one round erases the least entry, stores it by a lookup for collection, and goes on to the next one through its stale links |
| MapTable.MapTable.MapFlush | ATLWrapper.cpp:3168-3184 | afterwards the logs over the stored pages alone give the table |
| MapTable.SetVpnFlat | ATLWrapper.cpp:2023-2056 | dropping the log entry and storing the word below is one update of the flat table |
| MapTable.SetLogFlat | ATLWrapper.cpp:3837-3846 | a log entry over the cached word is one update of the flat table |
| FlashState.LiveBound | ATLWrapper.cpp:2061-2072 | no block has more live pages than it has places |
| FlashState.RelocatedLive | ATLWrapper.cpp:2260-2302 | remapping the gathered pages moves them from the victim's live set to the target's |
| FlashState.WipedOk | ATLWrapper.cpp:2312-2320 | erasing a block without live pages changes nothing that can be read, and takes no bit's meaning away |
| FlashDevice.Device.Program | ATLWrapper.cpp:3408-3411 | a superpage may be programmed only where nothing is programmed |
| SlotMapping.MapSlots | ATLWrapper.cpp:1598-1613 | the table moves exactly the named slots to the superpage, sets their bits and counts them |
| SlotMapping.StoreSlots | ATLWrapper.cpp:1598-1649 | mapping, programming and counting a superpage of buffered pages |
| VictimChoice.GetVictim | ATLWrapper.cpp:3020-3065 | the first of the data blocks not being written with the fewest live pages, at most 1016 |
| GcSpace.SkippedMeans | ATLWrapper.cpp:3029-3045 | a block is passed over exactly if some cursor is on one of its pages but the last |
| Forecast.ChoiceFirst | ATLWrapper.cpp:3020-3065 | the forecast of the victim: the first block, of those not being written, with the fewest live pages |
| Forecast.RoundCountable | ATLWrapper.cpp:2343-2564 | a round that frees nothing leaves lists, counts and cursor as the forecast needs them, with the cursor nearer to the front of its block |
| GcModel.DealtOne | ATLWrapper.cpp:2426-2462 | the copies fill the block written before the empty one, and each counts what it has taken |
| BankLaw.ChosenFirst | ATLWrapper.cpp:3020-3065 | in a lawful bank get_vt_vblock returns the victim forecast |
| BankLaw.RoundCounts | ATLWrapper.cpp:2343-2564 | after a round every block of the data list counts what the forecast says |
| BankLaw.RoundOutcome | ATLWrapper.cpp:2540-2564 | a round of a lawful bank frees the block forecast and leaves the lists and cursor forecast, or the forecast stays the same |
| BankLaw.NothingFreed | ATLWrapper.cpp:3058-3065 | without a block that may be collected the forecast is that nothing is freed and nothing changes |
| GcModel.Push | ATLWrapper.cpp:2196-2204 | a live half joins the gathered pages; copies never exceed the victim's count |
| GcModel.AllGathered | ATLWrapper.cpp:2249-2258 | at the end of the scan or at the full count, the gathered pages are the victim's live pages |
| GcModel.Flush | ATLWrapper.cpp:2206-2236 | after the gathered pages are programmed the run goes on with an empty buffer, the victim having lost just those pages |
| GcModel.DestFree | ATLWrapper.cpp:2208-2232 | the next destination is an unprogrammed superpage outside the victim, and a run needs at most 127 of them |
| GcModel.GcResult | ATLWrapper.cpp:2303-2320 | every page means the same, the victim is erased and marked, the GC block counts the victim's former live pages and is programmed up to the write pointer |
| GarbageCollector.Collector.Open | ATLWrapper.cpp:192-312 | RSP_Open of a bank: the lists and cursors it leaves, and the law of the bank holds |
| BankLaw.OpenOk | ATLWrapper.cpp:192-312 | erased blocks to write and unerased free ones satisfy the law |
| BankLaw.RoundLaw | ATLWrapper.cpp:2343-2564 | one round of inter_GC keeps the law: lists apart, data blocks counted and addressed, free blocks dead, pages behind the cursors unprogrammed |
| BankLaw.RoundRegion | ATLWrapper.cpp:2343-2564 | a round touches nothing outside the data list and the empty block; without an empty block, nothing outside the data list |
| BankLaw.RoundRoom | ATLWrapper.cpp:2343-2564 | a round that frees nothing keeps the room for the next one |
| BankLaw.ClearedPending | ATLWrapper.cpp:2113-2324 | after garbage_collection everything is in order but for the page under the write pointer, which is erased |
| BankLaw.PendingDone | ATLWrapper.cpp:1587-1649 | writing that page puts everything in order |
| BankLaw.OpenedPending | ATLWrapper.cpp:1692-1724 | the first page of a block taken for data is erased |
| BankLaw.OpenedRwPending | ATLWrapper.cpp:1745-1781 | the first page of a block taken for temporary pages is erased |
| BankLaw.MovedBank | ATLWrapper.cpp:1118-1129 | a log block whose pages are all remapped may join the data list |
| BankSteps.LetGoGentle | ATLWrapper.cpp:1460-1483 | letting go a page leaves every block as tidy, as erased and as free as it was |
| BankSteps.HandGentle | ATLWrapper.cpp:1112-1139 | so does handing a page of a log block to its home address |
| BankSteps.FilledGentle | ATLWrapper.cpp:1587-1649 | so does writing a superpage, but for its own block, where one more page is programmed |
| GarbageCollector.Collector.ReadVictim | ATLWrapper.cpp:2144-2192 | which halves are live by the mapping table, and their data in the buffer, a lone upper half shifted down |
| GarbageCollector.Collector.PushHalf | ATLWrapper.cpp:2195-2248 | a live half is entered, a full buffer written, and the ninth slot carried to the front |
| GarbageCollector.Collector.CopyPair | ATLWrapper.cpp:2361-2476 | both halves of one page, stopping at the victim's count |
| GarbageCollector.Collector.CopyVictim | ATLWrapper.cpp:2133-2258 | exactly as many pages are copied as the victim counts, and only gathered pages still live there |
| GarbageCollector.Collector.FlushBuffer | ATLWrapper.cpp:2426-2462 | the gathered pages leave the victim for the next superpage |
| GarbageCollector.Collector.NextSuper | ATLWrapper.cpp:2490-2498 | the next superpage is the run's next destination: behind the write pointer, or in the spare block once the current one is full, which then joins the data list |
| GarbageCollector.Collector.Evacuate | ATLWrapper.cpp:2350-2537 | no live page is left in the victim and at most 127 superpages have been written |
| GarbageCollector.Collector.GarbageCollection | ATLWrapper.cpp:2113-2324 | the victim is the first block with the fewest live pages; every page resolves to the same data; the lists change by the step that makes the victim the empty block; the next superpage is erased and lies behind the copies in the old GC_BLK, which counts what the victim counted |
| GarbageCollector.Collector.Round | ATLWrapper.cpp:2343-2564 | one victim, from any write pointer, with an empty block or, if the copies fit behind the write pointer, without: the law and all data are kept, the lists are those of the round; a leak is exactly a write pointer in GC_BLK with a victim that counts nothing |
| GarbageCollector.Collector.InterGc | ATLWrapper.cpp:2326-2577 | from any lawful state in which the copies have a place: the block freed, the data list, the empty block and the write pointer are those forecast from the valid counts, and it stops at the assertion that a victim exists if and only if the forecast frees nothing, which room for four more blocks than are live excludes; data kept, every block in its one place, but for GC_BLK exactly if the first round leaks |
| GarbageCollector.Collector.NextRound | ATLWrapper.cpp:2343-2564 | a round keeps the forecast or ends in the state forecast; one that frees no block moves the write pointer towards the front of its block and keeps the room, so the loop ends |
| GarbageCollector.Collector.GiveBack | ATLWrapper.cpp:2540-2564 | the victim is erased and becomes GC_BLK exactly if the write pointer is in GC_BLK, a free block otherwise |
| GarbageCollector.Collector.TakeFree | ATLWrapper.cpp:1745-1755 | the head of the free list, or the block forecast for inter_GC, with the lists and the pointer that leaves; it stops if and only if there is neither |
| GarbageCollector.Collector.AssignNewWriteVpnRW | ATLWrapper.cpp:1740-1796 | the page lies erased in a block of the log list, also the very first one, if and only if the block just filled is not the one taken next; if it is, the page is the first one of the block behind; the lists change by one allocation step, or are those inter_GC is forecast to leave; it stops if and only if a block is needed and there is none |
| GarbageCollector.Collector.TakeLogBlock | ATLWrapper.cpp:1745-1793 | a full log block: the next free block joins the log list, erased, or the pointer runs on if it is the one just filled |
| GarbageCollector.Collector.JoinLog | ATLWrapper.cpp:1756-1793 | the block joins the log list and the pointer goes to its first page, which is erased, unless it is the block just filled |
| GarbageCollector.Collector.AllotLog | ATLWrapper.cpp:1740-1796 | where a page can be had it is the erased page behind the pointer or the first of the next block, and each block keeps its one place |
| GarbageCollector.Collector.AssignNewWriteVpn | ATLWrapper.cpp:1683-1738 | the page lies erased in a block of the data list unless the block just filled is taken again or, before the first write, the pointer is on a programmed page; with a full block and no free one it is the page behind the copies of the first block with the fewest live pages |
| GarbageCollector.Collector.OpenBlock | ATLWrapper.cpp:1762-1790 | the block is erased unless it is marked erased, and counts zero |
| GarbageCollector.NextVpnInBlock | ATLWrapper.cpp:1762-1793 | the pointer lies in the block taken if and only if that is not the block just filled; else it is the first page of the block behind |
| GarbageCollector.RetakesFilledBlock | ATLWrapper.cpp:1740-1796 | a lawful bank in which the block filled with temporary pages has been freed: it is taken again, and the pointer goes to the first page of a block of data |
| GarbageCollector.LosesEmptyBlock | ATLWrapper.cpp:2557-2563 | a lawful bank with the full write pointer in GC_BLK: after one round of inter_GC the block is in no list or slot |
| GarbageCollector.HandsOutProgrammed | ATLWrapper.cpp:1683-1738 | a lawful bank in which inter_GC has written the page under the pointer before the first write: that page is handed out |
| GcSpace.Crowded | ATLWrapper.cpp:3020-3065 | if all blocks outside a small set were nearly full, there would be too many live pages |
| GcSpace.VictimExists | ATLWrapper.cpp:3020-3065 | with fewer live pages than that, a victim with at least eight dead pages exists besides the four blocks passed over |
| GcSpace.RoomKept | ATLWrapper.cpp:2343-2564 | a round that frees nothing leaves the bound in force for the new data list |
| GcSpace.CursorAfter | ATLWrapper.cpp:2557-2564 | the write pointer after a round lies in a data block whose pages before it are programmed |
| BufferState.ReleaseOk | ATLWrapper.cpp:1460-1483 | letting go the old page in flash keeps the invariant; only that page loses its data |
| BufferState.PlaceOk | ATLWrapper.cpp:1500-1583 | a page put into a buffer slot is read back, no other page changes, and no page is in two slots |
| BufferState.PlaceCounts | ATLWrapper.cpp:1500-1583 | buffered pages change no valid count and no count of awaited remaps |
| BufferState.OverwriteOk | ATLWrapper.cpp:1370-1400 | overwriting a buffered page in place keeps the invariant |
| BufferFlush.FlushOk | ATLWrapper.cpp:1587-1676 | writing a full buffer to flash changes no page's data and keeps the invariant |
| BufferFlush.FlushCounts | ATLWrapper.cpp:1598-1649 | vcount is again the number of pages mapped into each block |
| BufferFlush.FlushRemaining | ATLWrapper.cpp:1659-1676 | remained_remap_cnt, after taking off remap_inbuff_cnt, is the number of temporary pages in each block |
| BufferRemap.RemapPairOk | ATLWrapper.cpp:1032-1199 | one pair hands the temporary address's page to the home address and keeps the invariant |
| BufferRemap.GivenUpOk | ATLWrapper.cpp:1141-1186 | the home address's old page is given up, in the buffer or in flash |
| BufferRemap.HandNand | ATLWrapper.cpp:1112-1139 | a page in flash changes owner; its block awaits one remap less |
| BufferRemap.HandBuffered | ATLWrapper.cpp:1089-1111 | a page in the buffer changes owner; one remap more has happened in the buffer |
| BufferRemap.OneStep | ATLWrapper.cpp:1041-1193 | a further pair extends the composition of the remaps done |
| BlockLists.MovedOk | ATLWrapper.cpp:1118-1129 | a block without temporary pages moves from the log list to the data list, once |
| BlockLists.VictimsHoldNoTemps | ATLWrapper.cpp:1667-1673 | no temporary page lives in a block of the data list, where victims come from |
| BlockLists.SortedKept | ATLWrapper.cpp:1468-1483 | the lists stay right while other blocks' temporary pages stay |
| HostLaw.PristineLaw | ATLWrapper.cpp:192-312 | the state RSP_Open leaves, with empty buffers, satisfies the law |
| HostLaw.ReleaseLaw | ATLWrapper.cpp:1460-1483 | letting go a page keeps the law: home pages carry their address, blocks are in order, counts known |
| HostLaw.PlaceLaw | ATLWrapper.cpp:1500-1583 | entering a page in a buffer keeps it |
| HostLaw.PairLaw | ATLWrapper.cpp:1041-1193 | a remap pair that names the page's own remap address keeps it |
| HostLaw.AgreedKept | ATLWrapper.cpp:1041-1193 | one pair leaves the others right |
| HostLaw.DoneTidy | ATLWrapper.cpp:1118-1129 | a log block without temporary pages is as good as a block of data: its pages carry their home addresses and are counted |
| HostLaw.MoveLaw | ATLWrapper.cpp:1118-1129 | its move to the data list keeps the law |
| HostLaw.AllocHost | ATLWrapper.cpp:1683-1796 | what an allocator collects changes no page that is read and no count of awaited remaps |
| HostLaw.AllocatedSW | ATLWrapper.cpp:1683-1738 | after an allocation for data all is in order but the page to be written |
| HostLaw.AllocatedRW | ATLWrapper.cpp:1740-1796 | the same for temporary pages |
| HostLaw.FlushLaw | ATLWrapper.cpp:1587-1676 | writing the full buffer there puts the law in force again |
| TempRecords.AgreedAfterWrite | ATLWrapper.cpp:1368-1400 | after write_page a temporary page records the remap address of this write if it was not in a buffer; one in a buffer records what it recorded before |
| TempRecords.PlaceTemps | ATLWrapper.cpp:1500-1578 | the page entered has its own record, every other temporary page keeps its |
| TempRecords.AllocKeepsTemps | ATLWrapper.cpp:1683-1796 | what an allocator collects leaves all temporary pages and their spare areas alone |
| TempRecords.FlushTemps | ATLWrapper.cpp:1598-1649 | the record of a buffered temporary page becomes its spare area |
| TempRecords.PairKeepsTemps | ATLWrapper.cpp:1041-1193 | a remap takes the record of its own temporary page only |
| TempRecords.PairNeedsRecord | ATLWrapper.cpp:1041-1193 | a remap to another address than the one recorded leaves a home page whose spare area names another page |
| TempRecords.BookedWrite | ATLWrapper.cpp:1337-1681 | if the host's book of remap addresses agrees with the records, it does so after a write that gives no buffered page a new address |
| TempRecords.BookedRemap | ATLWrapper.cpp:1032-1199 | it does so after an entry of remaps |
| TempRecords.BookedEntry | ATLWrapper.cpp:1032-1199 | remaps by the book are those the law asks for |
| TempRecords.OtherCore | ATLWrapper.cpp:1049-1053 | pairs of the other core, and blank ones, change nothing |
| HostWriter.Writer.Open | ATLWrapper.cpp:192-312 | RSP_Open of all banks: empty buffers, the lists and cursors it leaves, and the law holds |
| HostWriter.Writer.Allocate | ATLWrapper.cpp:1588-1596 | the superpage is the one behind the bank's cursor, the first of its next free block, the one behind the copies of a collection or the first of the block inter_GC is forecast to free, and the lists and cursors change accordingly; it is erased; every page reads the same, every temporary page keeps its record |
| HostWriter.Writer.MoveIfDone | ATLWrapper.cpp:1470-1478 | the move happens exactly when no remap is awaited and the block is not being written |
| HostWriter.Writer.DropOld | ATLWrapper.cpp:1460-1483 | the old page's bit and counts go, its block leaves the log list if that was its last temporary page, and the law of blocks and buffers holds again |
| HostWriter.Writer.ChooseSlot | ATLWrapper.cpp:1503-1583 | the free half of the frame entered last if it is the page's frame, its half of a new frame, or, with all frames in use, the first free half, whose other half is filled |
| HostWriter.Writer.PutSlot | ATLWrapper.cpp:1500-1583 | the slot chosen holds the address, the remap address and the data, and the table leads there; the page reads as written, all others as before, every other temporary page keeps its record, and the law is kept |
| HostWriter.Writer.EnterPage | ATLWrapper.cpp:1500-1676 | the page is in its slot, or, if it has filled the buffer, all eight slots are in the superpage assigned and the buffer is empty |
| HostWriter.Writer.FlushBuffer | ATLWrapper.cpp:1587-1676 | a full buffer goes, slot by slot, to the superpage its bank assigns, and a log block that waits for no remap leaves the log list; every page reads the same, every temporary page keeps its record, the law holds again and the buffer is empty |
| HostWriter.Writer.OverwriteBuffered | ATLWrapper.cpp:1370-1400 | the page reads as overwritten, all others as before, and keeps its remap address |
| HostWriter.Writer.WritePage | ATLWrapper.cpp:1337-1681 | read-your-write for whole pages: the page reads as written (or as absent after padding), all others as before, and the law holds again; a page not in a buffer goes to the slot its frame and the buffer determine, and a full buffer to the superpage its bank assigns; a temporary page records the remap address of this write if and only if it was not in a buffer or recorded it already, every other one keeps its record; the answer says whether the host's frame is kept |
| HostWriter.Writer.RemapOne | ATLWrapper.cpp:1054-1191 | the state after one pair, in flash or in the buffer, and the block that leaves the log list; every other temporary page keeps its record; the law is kept if the pair names the address that came with the page, and broken if the page came with another one |
| HostWriter.Writer.DoRemap | ATLWrapper.cpp:1032-1199 | what every address reads afterwards is the in-order composition of this core's pairs; the temporary pages remapped are unmapped, every other one keeps its record; the law is kept if the pairs name the addresses that came with their pages |
| HostWriter.Writer.WriteThenRemap | ATLWrapper.cpp:1032-1681 | a temporary page written with a home address and remapped to it: the law holds, the home address reads the data, the temporary one nothing, all others as before |
| HostWriter.KeepsFirstHome | ATLWrapper.cpp:1368-1400 | a page written with one home address, overwritten in its buffer with another and remapped to that: the law is broken |
| IncModel.EraseSafe | ATLWrapper.cpp:2784-2801 | no page is mapped to a victim whose count is zero, and no buffered page comes from it |
| IncModel.BitmapExact | ATLWrapper.cpp:2655-2675 | for the unread part of the victim being read, a set bit and an address mean a live page, and the other way round |
| IncModel.LetGoOk | ATLWrapper.cpp:2984-3009 | an overwrite or remap between two steps keeps the invariant |
| IncModel.AllRead | ATLWrapper.cpp:2957-2973 | when as many pages are buffered as the victim counts, none is unread, and reading past the end leaves none either |
| IncModel.WriteOk | ATLWrapper.cpp:2724-2771 | writing the buffer keeps the invariant and every page's data |
| IncModel.DrainStep | ATLWrapper.cpp:2602-2618 | taking the count from the victims in list order makes each victim's count its number of live pages |
| IncModel.OwedAll | ATLWrapper.cpp:2593-2620 | all buffered live pages come from the victims, and every victim but the one being read has all its live pages in the buffer |
| IncModel.GoneOk | ATLWrapper.cpp:2784-2808 | erasing an empty victim keeps the invariant |
| IncModel.StopOk | ATLWrapper.cpp:2957-2973 | closing a victim that is read completely keeps the invariant |
| IncLaw.LetGoRest | ATLWrapper.cpp:2984-3009 | letting go a page keeps blocks, bitmaps, addresses and places in order |
| IncLaw.HandRest | ATLWrapper.cpp:1112-1139 | so does a remap in flash |
| IncLaw.LogDone | ATLWrapper.cpp:1118-1129 | the bitmap of a log block without temporary pages is exact |
| IncLaw.MoveRest | ATLWrapper.cpp:1118-1129 | so its move to the data list keeps the order |
| IncLaw.ChooseRest | ATLWrapper.cpp:2870-2890 | a block of the data list that is not being written may be collected: counted, addressed, its bitmap exact |
| IncLaw.OpenGcHalf | ATLWrapper.cpp:2707-2718 | opening the empty block leaves all in order but the page to be written |
| IncLaw.GcFillRest | ATLWrapper.cpp:2724-2771 | writing the collected pages there puts all in order |
| IncLaw.EraseRest | ATLWrapper.cpp:2784-2808 | erasing a victim without live pages keeps the order and makes it free |
| IncLaw.RefillRest | ATLWrapper.cpp:2810-2836 | taking a new empty block from the free list keeps the order |
| IncLaw.DataRest | ATLWrapper.cpp:1683-1738 | an allocation for data, with a collection if need be, leaves all in order but the page to be written |
| IncLaw.LogRest | ATLWrapper.cpp:1740-1796 | the same for temporary pages |
| IncLaw.FillRest | ATLWrapper.cpp:1587-1649 | writing a buffer of the host there puts all in order if no blanked slot meets a bit left over |
| IncLaw.CleanNeeded | ATLWrapper.cpp:1148-1161 | the block's bitmap stays exact if and only if that is so |
| IncLaw.RestNeedsClean | ATLWrapper.cpp:1598-1613 | and so does the whole order |
| IncLaw.FillInc | ATLWrapper.cpp:1587-1649 | the victims and the buffer of the collector are not disturbed by it |
| IncLaw.LogReady | ATLWrapper.cpp:2724-2740 | a page about to be logged is in a block of the bank, and the address it goes to is in the block written to and nobody's |
| IncLaw.WriteEffect | ATLWrapper.cpp:1598-1649 | what the host reads after a buffer has been written |
| IncLaw.RemapEffect | ATLWrapper.cpp:1112-1139 | what it reads after a remap |
| IncCollector.IncCollector.Open | ATLWrapper.cpp:192-312 | RSP_Open of a bank: the invariant holds, and both kinds of host writes are possible |
| IncCollector.IncCollector.HostLetsGo | ATLWrapper.cpp:2984-3009 | an overwrite or a remap of a page of the bank, in a victim or not: the buffered copy, the bit and the count go, and the whole invariant holds again |
| IncCollector.IncCollector.HostRemaps | ATLWrapper.cpp:1112-1139 | a remap of a page in flash keeps the invariant |
| IncCollector.IncCollector.LogDone | ATLWrapper.cpp:1118-1129 | the move of a log block to the data list keeps the invariant |
| IncCollector.IncCollector.HostWrites | ATLWrapper.cpp:1587-1649 | a full buffer reaches the erased superpage that the bank's lists, cursors and valid counts determine, the pages read as written, the spare areas and bits are those of the buffer, and the invariant holds again if and only if the superpage is clean |
| IncCollector.IncCollector.Assign | ATLWrapper.cpp:1683-1796 | the allocators, emergency collection included, hand out the superpage that lists, cursors and valid counts determine, and leave victims and buffer alone and all in order but the page to be written |
| IncCollector.IncCollector.CheckAndInvalidate | ATLWrapper.cpp:2984-3009 | the page's buffer entry is blanked and counted off if it comes from the current victim |
| IncCollector.IncCollector.DecreaseVcount | ATLWrapper.cpp:2593-2620 | each victim's count is its number of live pages again, other counts stay |
| IncCollector.IncCollector.NextGcPage | ATLWrapper.cpp:2692-2721 | the next page is unprogrammed, behind the pointer or in the empty block, which then joins the data list; all but the page to be written is in order again |
| IncCollector.IncCollector.WriteGcBuffer | ATLWrapper.cpp:2688-2772 | the buffer is written and empty, every page resolves to the same data |
| IncCollector.IncCollector.ReadVictimPage | ATLWrapper.cpp:2622-2684 | the halves live by the bitmap, and their data in the buffer |
| IncCollector.IncCollector.ReadHalves | ATLWrapper.cpp:2655-2684 | the code's test on any page: a half is taken if and only if it has an address and a set bit |
| IncCollector.IncCollector.ReadPair | ATLWrapper.cpp:2918-2954 | both halves enter the buffer; it is written if and only if the live ones fill it and there is a superpage to write it to, and stops if and only if there is none |
| IncCollector.IncCollector.PushHalf | ATLWrapper.cpp:2918-2954 | a live half enters the buffer, and the carried half reaches its slot on either side of the double buffer |
| IncCollector.IncCollector.FindPage | ATLWrapper.cpp:2901-2916 | the next page one of whose bits is set; there is none exactly if the victim's end has been reached |
| IncCollector.IncCollector.ReadNext | ATLWrapper.cpp:2899-2955 | reading goes on behind the next page with a bit set, its live halves are in the buffer, and the buffer is written exactly if they fill it; data keep their meaning and the invariant holds |
| IncCollector.IncCollector.EraseVictimBlock | ATLWrapper.cpp:2774-2845 | erases the first victim whose count is zero, if there is one and a block is at hand to replace a used empty block; it stops if and only if that block is missing; no page was mapped to the victim, and the lists change by that step |
| IncCollector.IncCollector.FreeVictim | ATLWrapper.cpp:2810-2836 | the victim is in the free list, and a missing empty block is taken from its head and erased |
| IncCollector.IncCollector.Reclaim | ATLWrapper.cpp:2784-2836 | the lists change by the erasure of the victim, with or without a new empty block; data kept |
| IncCollector.IncCollector.EraseVictim | ATLWrapper.cpp:2784-2808 | the victim is erased and leaves the list; reading stops if it was being read |
| IncCollector.IncCollector.ChooseVictim | ATLWrapper.cpp:2870-2890 | the first data block with the fewest live pages becomes the last victim, to be read unless it counts none; its bitmap is exact by the invariant |
| IncCollector.IncCollector.DoIncrementalGC | ATLWrapper.cpp:2848-2982 | from every state of the invariant, meaning and invariant are kept, also where it stops; a victim, the first data block with the fewest live pages, is chosen exactly if none is being read and the first one is not used up; the buffer is written exactly if the live halves of the next page fill it, and otherwise the first victim used up is given back, if there is one; the answer is true exactly if one of these happened; it stops exactly at one of the code's three assertions |
| IncCollector.IncCollector.Advance | ATLWrapper.cpp:2899-2981 | the step for the victim picked: what is read, where the write position and the reading position are afterwards, which victim is given back, and exactly when it answers true and when it stops |
| IncCollector.IncCollector.Perform | ATLWrapper.cpp:2848-2982 | one overwrite, remap, move, host write or collection step has exactly its effect on what the host reads, and keeps the invariant unless a blanked slot met a bit left over; a collection step is always possible |
| IncCollector.IncCollector.Run | ATLWrapper.cpp:2579-2591 | any sequence of these, in any order: as many as can be taken, with the composed effect on what the host reads, and the invariant at the end; where it ends early, an assertion of the collection step or the action's own condition fails |
| IncCollector.TakesDeadForLive | ATLWrapper.cpp:2655-2675 | a collector whose block has been written with a blanked slot over a bit left over: the test takes the page, mapped nowhere, for the live page of address 0 |
| CircularLists.Rotate | ATLWrapper.cpp:3081-3101 | a circular list may be read from any of its blocks |
| CircularLists.BlockList.InsertTail | ATLWrapper.cpp:3103-3121 | the list gains the block at its end, links of other blocks stay |
| CircularLists.BlockList.InsertFront | ATLWrapper.cpp:3081-3101 | the list gains the block at its front |
| CircularLists.BlockList.Delete | ATLWrapper.cpp:3123-3151 | the list loses the block, wherever it is |
| CircularLists.BlockList.First | ATLWrapper.cpp:3012-3018 | the head, or VC_MAX for the empty list |
| CircularLists.OtherCircle | ATLWrapper.cpp:3081-3151 | lists over other blocks of the same table are undisturbed |
| BlockPartition.OpenPartition | ATLWrapper.cpp:192-312 | after RSP_Open each block is in exactly one list or slot |
| BlockPartition.RoundKeeps | ATLWrapper.cpp:2540-2563 | a round of inter_GC keeps the partition if and only if the write pointer is not in GC_BLK or the copies open GC_BLK; behind a full block the latter means that the victim counts something |
| BlockPartition.StepConserves | ATLWrapper.cpp:2307-2310 | allocation, collection, victim erasure, remap moves and the map- and meta-block switches neither lose nor double a block, and a round of inter_GC loses GC_BLK exactly if it leaks |
| BlockPartition.LostForGood | ATLWrapper.cpp:2557-2563 | no step brings back a block that is in no list |
| BlockPartition.RunPartition | ATLWrapper.cpp:2557-2563 | after any run of the lists' steps each block is in one place if and only if no round on the way has leaked |
| BlockPartition.AlwaysPartition | ATLWrapper.cpp:192-312 | so from RSP_Open on; the steps are those the methods of the collectors, the writer and the map store are proved to make |
| Epochs.AgeIsTrue | ATLWrapper.cpp:1007-1016 | the difference modulo 65536 is the true one exactly below 65536 |
| Epochs.JournalQueue.TwriteArrives | ATLWrapper.cpp:817-828 | a journal temporary write takes the current epoch |
| Epochs.JournalQueue.TwriteDone | ATLWrapper.cpp:936-947 | it leaves the list when its last page has come |
| Epochs.JournalQueue.RemapArrives | ATLWrapper.cpp:956-993 | a remap is queued with its epoch and then all runnable ones are run |
| Epochs.JournalQueue.DoRemap | ATLWrapper.cpp:995-1030 | exactly the remaps that arrived before the oldest outstanding temporary write are run, in order |
| HostLog.PackHeader | SHRD_host.cpp:44-90 | the header holds the addresses drawn, in order, each in a slot of its core's parity, padded no more than that needs; it ends where as many slots are packed as asked for or the next address does not fit |
| HostLog.WindowCount | SHRD_host.cpp:174-178 | the valid slots of a window are as many as the addresses mapped there |
| HostLog.RemapClean | SHRD_host.cpp:180-185 | the exact condition under which no valid slot falls out of the log |
| HostLog.FullLooksEmpty | SHRD_host.cpp:287-334 | runs the generator on a log with room for one full header: it then holds pages, but start and end coincide |
| HostLog.StepsOverPage | SHRD_host.cpp:180-185 | runs do_remap on a log whose first valid page lies just behind the window: the start steps over it |
| HostLog.HeaderFull | SHRD_host.cpp:44-90 | a header has all 128 slots if and only if 127 addresses may be packed and those drawn fill it |
| HostLog.ChosenSafe | SHRD_host.cpp:268-276 | the slots chosen do not wrap and stay more than 4096 slots behind the newest; they are REMAP_SIZE, or end at the end of the ring or at the newest slot |
| HostLog.UsedCounts | SHRD_host.cpp:268 | the size computed is the number of slots between the start and the next one to write, around the ring |
| HostLog.CorneredAbove | SHRD_host.cpp:294-329 | whenever the generator calls do_remap, the log is above the threshold |
| HostLog.RingLog.Record | SHRD_host.cpp:105-158 | the redirection map after the header's pages; it stays a bijection with the valid slots |
| HostLog.RingLog.RecordPage | SHRD_host.cpp:132-152 | one page: the older slot of the same address becomes invalid |
| HostLog.RingLog.NextKey | SHRD_host.cpp:196 | the next address in ascending order |
| HostLog.RingLog.Retire | SHRD_host.cpp:218-222 | the addresses of a sent command leave the map and their slots become invalid |
| HostLog.RingLog.Collect | SHRD_host.cpp:203-231 | a full command of 511 pairs is sent before a further pair is taken |
| HostLog.RingLog.RemapWindow | SHRD_host.cpp:167-261 | every valid page of the window is named once, ascending, in commands that are all full but the last; start moves behind the window, one too far if it had none |
| HostLog.RingLog.DoRemap | SHRD_host.cpp:263-285 | returns 0 exactly above the threshold; which addresses leave, where the log starts then, and exactly when it stays clean |
| HostLog.RingLog.DoTwrite | SHRD_host.cpp:35-165 | the header is the one the packing rules determine, and the map and the index are those after its pages; the log stays clean unless it had room for 128 and the addresses drawn fill them |
| HostLog.RingLog.GenWorkload | SHRD_host.cpp:287-334 | remaps exactly when cornered, with all that do_remap promises; otherwise the header that the packing rules and the room in the ring determine; stays clean unless there is room for exactly one full header and the addresses drawn fill it |
| HilQueues.MovedConserved | HILWrapper.cpp:22-58 | moving a buffer between queues neither loses nor doubles one |
| HilQueues.OnePlace | HILWrapper.cpp:22-58 | a buffer has one position in one queue |
| HilQueues.PoolLeft | HILWrapper.cpp:22-58 | every buffer is free, waits, or holds a page that is queued: that many are free |
| HilQueues.FewWaiting | ATLWrapper.cpp:1500-1547 | the buffers that wait are distinct frames of the write buffers, so at most 192 |
| HilQueues.FrameEmptied | VFLWrapper.cpp:82-106 | giving back one frame leaves exactly the other waiting buffers in frames |
| HilQueues.HandedOver | HILWrapper.cpp:222-297 | handing over the head of a queue keeps each page's history of writes |
| HilQueues.PoppedDue | HILWrapper.cpp:209-298 | each step of a drain keeps what a core has been called with and what it is still to be called with, as one sequence |
| HilQueues.TurnsRound | HILWrapper.cpp:269-271 | the round starts at the bank queue of the counter and goes on from each queue to the next |
| HilQueues.BanksAreData | HILWrapper.cpp:173-205 | the bank queues hold pages of data only |
| HilQueues.Enqueued | HILWrapper.cpp:190-202 | a page queued in a new buffer is the last write of its history |
| HilQueues.PairedHistory | HILWrapper.cpp:178-188 | a page paired into a partial tail is the last write of its history |
| HilQueues.Hil.constructor | HILWrapper.cpp:79-113 | all buffers free, nothing queued |
| HilQueues.Hil.BuffFree | HILWrapper.cpp:115-142 | the buffer goes from the waiting to the free queue, cleared; pages queued stay |
| HilQueues.Hil.Issue | VFLWrapper.cpp:82-110 | every frame of the write buffer goes back to the pool, where it is found among the waiting ones; the other frames still are the waiting buffers |
| HilQueues.Hil.FetchUrgent | HILWrapper.cpp:224-240 | the head of the urgent queue, if there is one, is handed over; the other queues and the histories stay |
| HilQueues.Hil.PickBank | HILWrapper.cpp:269-273 | the first nonempty bank queue of the core in round-robin order, none only if all are empty |
| HilQueues.Hil.FetchBank | HILWrapper.cpp:267-294 | the head of the first nonempty bank queue in the round is handed over and its pages counted off; the other queues and the histories stay |
| HilQueues.Hil.Drain | HILWrapper.cpp:209-298 | the loop ends with every queue of pages empty; each core has been called with the buffers of its urgent queue, in order, and then with those of its bank queues, one queue after the other in the order of the round, all of them data; histories kept |
| HilQueues.Hil.QueueUrgent | HILWrapper.cpp:150-172 | a command page gets a buffer of its own at the end of its core's urgent queue, and there always is one: the assertion on the empty pool is not reached |
| HilQueues.Hil.QueueNormal | HILWrapper.cpp:173-205 | a data page is paired with the partial tail of its bank queue or opens a buffer at its end, and there always is one |
| HilQueues.Hil.WriteLPN | HILWrapper.cpp:144-301 | the page joins the tail of its queue and is appended to its own history and to no other; from 32 queued pages on everything is handed over, command pages first |
| HilQueues.Hil.NeverEmpty | HILWrapper.cpp:150-196 | between two calls more than 2336 buffers are free, since only frames of the write buffers wait and at most 31 pages stay queued |
| HilQueues.Hil.ReadLPN | HILWrapper.cpp:303-379 | the command pages are handed over in order; the read sees the whole history of its page exactly when no write to it is queued; a buffer to borrow is always there |
| HilQueues.ReadPassesWrite | HILWrapper.cpp:303-379 | a reachable state in which it does not |


## Left out

- VFLWrapper's files, seek offsets and pending counters: flash is an abstract device that is programmed, read and erased.
- SHRD_sim.cpp, the trace parsing and the HOST_verify functions: drivers and printing.
- Profile counters, debug fields, `generate_vpn`, `test_NAND_list`, `vcount_test`, `map_vcount_test`: diagnostics only.
- Sub-page sector bitmaps and read-modify-write, meta pages and the dirty bitmap of the block-bitmap pages: pages are whole. `write_page` marks the sectors of a page it overwrites in a buffer under the type of the new write, not of the buffer; this is not modelled.
- Journal blocks: `assign_new_write_vpn_JN` and the moves of journal blocks, which repeat the temporary-write case with another list; `do_confirm_read` and the completed-remap list.
- Raw pointers and the colour packed into them: separate fields and indices.
- The circular relinking of HIL queues, which is that of the block lists: a queue is the sequence of its buffers.
- GarbageCollector.Collector.GarbageCollection: requires a full write pointer, an empty block and a victim with at most 1016 live pages, as the code asserts; its copying loops are shared with `inter_GC`, which differs only in where a superpage goes.
- GarbageCollector.Collector.InterGc: where there is no empty block (GC_BLK is VC_MAX), requires that the pages of the next victim fit behind the write pointer (`Served`); otherwise the code goes on with block VC_MAX, which lies outside its table, and is not modelled. That a victim exists is not derived from the number of addresses: the bank of a page is the one whose turn it is when the page is written (ATLWrapper.cpp:1350-1351, 1651), not a function of its address, so no bank has a bound of its own, and the code's assertion can fail.
- HostWriter.Writer.WritePage: not for journal writes; the bank whose turn it is (`cur_write_bank`) and the host's frame are parameters; requires that a page that fills the buffer finds a superpage (`Allottable`: the allocators' failing cases above are excluded, and a block can be had). Incremental collection steps between host writes are those of IncCollector, on one bank: one state in which `write_page`, `__do_remap` and `do_incremental_GC` of all banks alternate is not modelled.
- HostWriter.Writer.DoRemap: requires that the temporary addresses of this core's pairs are mapped when their turn comes; the code stops otherwise.
- IncCollector.IncCollector.DoIncrementalGC: the map log written there is an update of the table, as `MapTable.SetMapLog` and `IncLaw.LogReady` justify.
- IncCollector.IncCollector.HostWrites: not for journal writes; where the allocator has to collect, requires an empty collection buffer (`index == 0`), because emergency collection and incremental collection share GCbuf_lpn and GCbuf_index, and that `inter_GC` does not lose the empty block. The write buffers themselves are those of HostWriter: here a buffer is the slots it is written with.
- IncCollector.IncCollector.Assign: requires the same two conditions where it has to collect.
- IncCollector.IncCollector.Run: stops at the first action that cannot be taken, that stops at an assertion or that leaves the bitmap inexact; nothing is promised after the last.
- `bank_meta_flush` is a step on the lists (SwitchMeta) without a method of its own.
- RSP_WritePage's look-up of temporary-write headers and RSP_ReadPage's copies into host memory.
- HilQueues.Hil.Translate: stands for RSP_WritePage: it chooses arbitrarily whether a data page's buffer becomes a frame of a write buffer, and which write buffers are issued.
- A buffer whose halves are a data page and a journal page: the code makes it a frame of two write buffers. As journal writes are left out, a buffer is a frame of one write buffer at most (`HilQueues.Hil.Translate`).
