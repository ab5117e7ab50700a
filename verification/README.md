# Proofs about the OpenSSD flash translation layers and the in-storage copy service

The repository holds firmware for a solid state disk (OpenSSD-1.1.0) and a host service that sends it work
(PCModule2). This project models the parts with the most state and proves what they are for.

| files | what they model |
|---|---|
| `Common`, `Nand`, `Striping`, `FlatDisk` | shared vocabulary, flash pages and blocks, how host sectors are spread over banks, blocks and pages, and the flat array of sectors that a host expects |
| `HashTable` | the static hash table: chains and a free pool in one node array, bucket heads in another |
| `FasterState`, `FasterSteps`, `FasterGc`, `FasterWrite`, `FasterCapacity`, `BlockMaps` | the invariant of a bank of the FASTer FTL and every single step it takes, on pictures of the bank |
| `FasterControl` | what decides where pages go: the hash table, the second-chance bits, the pointers and counters of a bank, the self-tuning of the progressive merges included; a page write takes this state to the next one, or fails |
| `FasterRuns` | runs on such states: when a write succeeds, what the correlated reference knows of the writes before |
| `FasterStream` | which lpns go to the sequential-write log block, and what a sequential stream comes to |
| `FasterMerges` | what the progressive merges come to over a run: how many there are, that they free blocks, how often they are made |
| `FasterBank`, `FasterFtl` | the FASTer FTL itself: classes whose methods follow ftl_faster/ftl.c, and the run theorem over all banks |
| `FasterRows`, `FasterLaps`, `FasterBrink`, `FasterLimits`, `FasterEnds` | runs from format on that come to the limits of the FASTer FTL: how rows of live pages change, laps round the log, the way to where three isolation blocks are left, the three runs, and banks that take them |
| `GreedyState`, `GreedySteps`, `GreedyBank`, `GreedyFtl` | the greedy page-mapped FTL in the same way |
| `GreedyPower` | saving the greedy FTL's tables to flash and loading them back |
| `GreedyDevice` | the greedy FTL with its metadata: host commands and power cycles in any order |
| `RequestRing` | the ring of requests shared by client processes and the server, as a state machine over atomic steps |
| `DeviceRouter` | the device table of the server and the queues of its workers |
| `BankTurns`, `SectorStore`, `FileCopy` | page writes that go round the banks, the tutorial FTL's sector store for the in-device copy, the extents made on the host, and the copy |

The main results are these.

* **FASTer behaves like a flat array of sectors** (`FasterFtl.Ftl.Run`), for any number of banks, each with its own
  number of bad blocks, and any sequence of reads and writes of any length and alignment, up to the first write that
  fails. It rests on an invariant (`FasterState.Inv`) under which each merge and each collection leaves what is read
  unchanged. The contract also says, exactly, which runs fail and how: a run ends as the run of the control states
  (`FasterRuns.RunCtl`) does.
* **When a write fails.** `FasterRuns.WriteOutcome` gives the condition, an if and only if, on the state before the
  write: a write that collects needs room for the cold pages of the block collected at last, and a write that merges
  needs a victim pointer that is not stuck. There are two ways to fail: an ASSERT, and an overrun that no ASSERT
  notices.
* **The limits are reached** from format on, in blocks of any number of pages that the FTL admits: a stuck victim
  pointer (`FasterLimits.StuckReached`), a reserve that is too small (`FasterLimits.ReserveRunsOut`), and, if a bank
  has at least four log blocks more than a block has pages, the overrun (`FasterLimits.OverrunReached`). `FasterEnds`
  has formatted banks that take these runs. The first (K - 1) * (P - 1) writes to a bank never fail
  (`FasterRuns.FreshWrites`).
* **Where a page goes.** After any run of writes from format on, an lpn of the data block that the SW log block serves
  goes there if and only if it is the one behind the lpn that went there last; any other lpn, if and only if the chain
  of consecutive lpns is long enough (`FasterStream.GoesToSw`). So a sequential stream of any length takes five pages
  of the RW log and none of the isolation area, and of each block that it fills nothing stays in the log
  (`FasterStream.SequentialStream`, `FasterEnds.StreamBank`).
* **Merges keep up.** Over any run the merges made are weighed against the isolation blocks that have come free and
  those that collections have begun (`FasterMerges.MergeBalance`); once the reserve is reached, P - 1 writes that
  collect nothing free a block or leave the pointer stuck (`ReserveRefills`).
* **The greedy FTL behaves like a flat array** (`GreedyFtl.Ftl.Run`), for any number of banks. With fewer logical
  pages than P - 2 to each data block, by a pigeonhole argument, one ASSERT only can fire in any run, and exactly on a
  clash with lpn 0 (see below); with a single bank none can.
* **It does so across power cycles** (`GreedyDevice.Device.Run`): in any run of host commands and power cycles, before
  each of which the tables are flushed, reads return what the flat array would. The metadata code saves and restores
  all tables after any number of earlier flushes (`GreedyPower.Store.PowerCycle`).
* **The request ring is a queue** in every interleaving of any number of producers and consumers, and never gets
  stuck. What a producer comes with is what it writes, and what a consumer comes away with is the packet that it has
  itself taken off the queue, one each time (`RequestRing.OwnPackets`).
* **The hash table is a finite map** for any hash function, and its node array cannot overflow.
* **Each device has its worker.** In any run of the server a dispatch finds room in the table if there have been at
  most 2n devices since the last refresh but one (`DeviceRouter.NeverFull`), and 2n + 1 are too many (`Overfull`). A
  device that stays in use from then on has all its requests run by one worker, in order
  (`DeviceRouter.OneWorkerInOrder`); a device is a disk with all its partitions (`RealDevIs`, `DiskInOrder`).
* **A file copy** copies the file's sectors, all of them and in order, and changes no other sector; when it fails, a
  known number of them has been copied, and the reason is known. A write of sectors succeeds if and only if each bank
  has the pages that fall to it, the banks taking turns (`SectorStore.Store.IssdWriteSectors`), so NB banks with r pages
  each take NB * r page writes (`BankTurns.Capacity`).

The classes keep the real tables in their fields. Beside them, ghost fields and functions give a *picture* of a bank
in which every mapping table has been followed: data block L, log block b and isolation block i appear with their
contents. A merge is a method that changes the tables, and a lemma about pictures says that the change keeps the
invariant and the view. `WellMapped` in `BlockMaps` ties the tables to the pictures: every good block has exactly one
role, and the blocks in the free ring are erased. `NandPageProgram` in each class requires the page and all later
pages of its block to be erased, so the NAND discipline is checked at every place where a page is programmed.

## What the code does not keep

* `full_merge` may leave its victim pointer stuck. When the next live victim page is the last data page of its block,
  and its lpn belongs to the data block that the SW log block serves, behind what has been written there, the partial
  merge removes the page's entry; full_merge then goes back (ftl_faster/ftl.c:1615-1617) without recycling the block,
  and the next call fails the ASSERT at 1580. `StuckAfter` and `FullMerge` say that this is exactly when;
  `StuckReached` is a run that comes to the failure, in any bank with at least four log blocks. (A page found dead
  there is no trouble: the block is recycled.)
* RESERV_ISOL_BLK is 2, but a victim pointer parked behind a recycled block takes one block away. A collection that
  crosses into the next isolation block then fails, though the ASSERT at ftl_faster/ftl.c:1795 asks for one free block
  only. `CollectOutcome` says when a collection succeeds; `ReserveRunsOut` is a run that ends with two isolation
  blocks free, the pointer parked, two blocks needed, and a failing ASSERT. Merges are put off in it by a long stretch
  of writes to one lpn, during which the interval between merges grows.
* As long as no victim page has been merged, `cur_vt_isol_lpn` is INVALID and no ASSERT compares it with the write
  pointer. If one isolation block is free and a collection needs two, it writes on into the oldest block
  (ftl_faster/ftl.c:1795-1817). `OverrunsWhen` says that this is exactly when. It can happen: merges come behind
  writes that collect nothing only, and `OverrunReached` is a run whose last P + 1 writes all collect.
* is_ok_write_to_sw_logblk means to detect runs of more than COR_REF_THRESHOLD consecutive lpns. Its counter stands
  still while pages are appended to the SW log block, even if an append does not follow the lpn noted last.
  `DetectMeans` says exactly what is detected, `StreakIs` and `DetectedStreak` exactly when that is such a run, and
  `DetectsTooSoon` gives twelve page writes from format on after which two consecutive lpns are enough.
* `dispatchReqPacket` (PCModule2/server/reqQueue.c:104-111) uses the worker index without looking at it; it is -1 when
  the table is full of other devices. `DispatchReqPacket` and `RoutedWhen` say exactly when that is, and `Overfull`
  that requests for any 2n + 1 devices in a row come to it.
* `postProcess` reports too many extents already when they exactly fill the array (`FileCopy.ExactlyFull`).
* In the greedy FTL the block that a bank writes first never gets its page 0 written, and the block's list names lpn 0
  there, a page of bank 0. A bank other than bank 0 that collects this block takes the page for a live one of its own
  if lpn 0 is at page 0 of the block with the same number in bank 0 (ftl_greedy/ftl.c:646-672). It then moves one page
  too many, and the ASSERT at 687 fails, or with no live page the one at 681. `Clash` is this condition, and
  `WritePage` says that a page write fails exactly when it collects a block that clashes; `ClashReached` is a run of
  page writes to two banks that ends so, whenever the block that the one writes first is a good block of the other,
  but not one of its first two.
* A victim block without live pages keeps the second-chance bits it had (`BitsAfter`): the branch that would clear
  them, ftl_faster/ftl.c:1737, cannot be reached.

## Model

| member | source | states |
|---|---|---|
| Striping.LpnRoundTrip | OpenSSD-1.1.0/ftl_faster/ftl.c:94-97 | splitting a host page number into bank, block and offset and joining them again gives it back |
| Striping.AddrRoundTrip | OpenSSD-1.1.0/ftl_faster/ftl.c:94-97 | joining and splitting again gives back bank, block and offset, with the number written out, so no two pages share one |
| Striping.NextDataLpn | OpenSSD-1.1.0/ftl_faster/ftl.c:100 | the next lpn is the next page of the same data block in the same bank, or the first page of the next block |
| Striping.LbaInside | OpenSSD-1.1.0/ftl_faster/ftl.c:94-96 | a sector below the capacity of the device lies in an existing data block |
| Striping.PagesTouched | OpenSSD-1.1.0/ftl_faster/ftl.c:937-961 | the pages that a transfer counts are exactly those that have a sector of it |
| StaticHashTable.HashTable.constructor | OpenSSD-1.1.0/target_spw/shashtbl.c:47-55 | the table starts as the empty map |
| StaticHashTable.HashTable.Insert | OpenSSD-1.1.0/target_spw/shashtbl.c:56-84 | inserting an absent key adds exactly that entry, for any hash function; with fewer entries than nodes a node is always found |
| StaticHashTable.HashTable.Get | OpenSSD-1.1.0/target_spw/shashtbl.c:85-100 | the search down a chain finds the key's value, and finds nothing exactly for keys not in the map |
| StaticHashTable.HashTable.Remove | OpenSSD-1.1.0/target_spw/shashtbl.c:101-130 | removing a key removes exactly its entry, wherever in its chain it is; the node goes to the free pool |
| StaticHashTable.HashTable.Update | OpenSSD-1.1.0/target_spw/shashtbl.c:131-156 | only the value of the key changes |
| StaticHashTable.PushRoom | OpenSSD-1.1.0/target_spw/shashtbl.c:56-76 | nodes in use are live entries and pooled nodes, so while entries are fewer than nodes the pool or the rest of the array has one |
| StaticHashTable.PushedOk | OpenSSD-1.1.0/target_spw/shashtbl.c:56-84 | an insertion keeps chains and pool acyclic and apart, each key once and in its own bucket |
| StaticHashTable.PoppedOk | OpenSSD-1.1.0/target_spw/shashtbl.c:101-130 | unlinking any node of a chain into the pool keeps the same |
| StaticHashTable.RewrittenOk | OpenSSD-1.1.0/target_spw/shashtbl.c:131-156 | rewriting a value in place keeps the same |
| StaticHashTable.ChainDistinct | OpenSSD-1.1.0/target_spw/shashtbl.c:85-100 | no chain visits a node twice, so the searches end |
| FasterCapacity.DistinctLogLpns | OpenSSD-1.1.0/ftl_faster/ftl.h:84-88 | distinct lpns have distinct log addresses, all of them below (LOG + ISOL) * P |
| FasterCapacity.HashRoom | OpenSSD-1.1.0/ftl_faster/ftl.h:84-88 | while one log address is unused, the node array of the hash table is not full |
| BlockMaps.FormatOwned | OpenSSD-1.1.0/ftl_faster/ftl.c:333-478 | format gives every good block exactly one role: data, free, isolation or log |
| BlockMaps.FormatAtRest | OpenSSD-1.1.0/ftl_faster/ftl.c:480-505 | the pointers set after format meet the whole invariant, with every page reading as erased |
| BlockMaps.SwInstall | OpenSSD-1.1.0/ftl_faster/ftl.c:1465-1474 | ownership is conserved when the SW block becomes a data block, a free block the SW block, and the old data block is erased into the ring |
| BlockMaps.DataInstall | OpenSSD-1.1.0/ftl_faster/ftl.c:1652-1657 | ownership is conserved when a merged block takes a data block's place |
| BlockMaps.LogInstall | OpenSSD-1.1.0/ftl_faster/ftl.c:1843-1855 | ownership is conserved when a collected log block is replaced |
| BlockMaps.IsolRenew | OpenSSD-1.1.0/ftl_faster/ftl.c:1664-1678 | ownership is conserved when an isolation block is recycled |
| BlockMaps.TakeLoose | OpenSSD-1.1.0/ftl_faster/ftl.c:1857-1865 | a block from the ring is erased and in no table |
| FasterSteps.SwWrittenCore | OpenSSD-1.1.0/ftl_faster/ftl.c:1226-1303 | writing the next page of the SW log block finds it erased and keeps the invariant: all offsets up to the last one are in the log |
| FasterSteps.SwWrittenView | OpenSSD-1.1.0/ftl_faster/ftl.c:966-1131 | after it the lpn reads as written and every other lpn as before |
| FasterSteps.RwWrittenCore | OpenSSD-1.1.0/ftl_faster/ftl.c:1175-1218 | the same for the next page of the RW log |
| FasterSteps.RwWrittenView | OpenSSD-1.1.0/ftl_faster/ftl.c:966-1131 | after it the lpn reads as written and every other lpn as before |
| FasterSteps.RwClosedCore | OpenSSD-1.1.0/ftl_faster/ftl.c:1201-1216 | writing the lpn list finds the last page erased and changes nothing that is read |
| FasterSteps.SwFull | OpenSSD-1.1.0/ftl_faster/ftl.c:1425-1477 | when the SW block is full all pages of its data block are in the log, and forgetting those that sit in it loses no older or newer copy |
| FasterSteps.SwMerged | OpenSSD-1.1.0/ftl_faster/ftl.c:1502-1546 | completing the SW block with the newest copies and installing it changes nothing that is read |
| FasterSteps.FullMerged | OpenSSD-1.1.0/ftl_faster/ftl.c:1626-1657 | rewriting a whole data block from wherever its pages are changes nothing that is read |
| FasterSteps.VictimMerged | OpenSSD-1.1.0/ftl_faster/ftl.c:1559-1679 | the merge of the victim page's block leaves no entry behind the victim pointer |
| FasterSteps.VictimPassed | OpenSSD-1.1.0/ftl_faster/ftl.c:1605-1624 | the victim pointer may pass a page that is dead, or live for the lpn about to be merged |
| FasterSteps.VtMovedCore | OpenSSD-1.1.0/ftl_faster/ftl.c:1584-1624 | only the lpn that the victim block's list names can be live at the page passed |
| FasterSteps.NoneBehind | OpenSSD-1.1.0/ftl_faster/ftl.c:1664-1678 | erase safety: when the victim pointer is at the end of a block, no entry points into that block |
| FasterSteps.RecycledOk | OpenSSD-1.1.0/ftl_faster/ftl.c:1588-1602 | erasing that block and counting it free keeps the invariant and all that is read |
| FasterSteps.IsolMovedView | OpenSSD-1.1.0/ftl_faster/ftl.c:1801-1824 | moving a live page to the isolation area changes nothing that is read, and leaves nothing behind the victim pointer |
| FasterSteps.IsolClosedCore | OpenSSD-1.1.0/ftl_faster/ftl.c:1786-1799 | closing an isolation block and going on to the next one keeps the invariant while two blocks are free |
| FasterSteps.GcKeptCore | OpenSSD-1.1.0/ftl_faster/ftl.c:1746-1762 | copying a live page of the victim to its replacement, over a list compacted in place, changes nothing that is read and clobbers no list entry still to be read |
| FasterSteps.GcEndedCore | OpenSSD-1.1.0/ftl_faster/ftl.c:1843-1855 | the replacement may take the victim's place once all pages have been looked at |
| FasterGc.MarkedOne | OpenSSD-1.1.0/ftl_faster/ftl.c:1712-1727 | giving a fully live block its second chance makes one log block less that has no second-chance bit |
| FasterGc.UnmarkedBound | OpenSSD-1.1.0/ftl_faster/ftl.c:1190-1199 | fewer than K blocks can be without second-chance bits |
| FasterGc.ColdBound | OpenSSD-1.1.0/ftl_faster/ftl.c:1696-1710 | cold pages are counted among the live ones, and the pages still to come are bounded by the pages left |
| FasterControl.KeptRoom | OpenSSD-1.1.0/ftl_faster/ftl.c:1712-1727 | a victim that is collected leaves at least one page of its replacement free |
| FasterGc.PointersMeet | OpenSSD-1.1.0/ftl_faster/ftl.c:1793-1817 | the write pointer's block is the victim pointer's exactly when that pointer is parked and one isolation block is free |
| FasterWrite.WriteOk | OpenSSD-1.1.0/ftl_faster/ftl.c:1000-1082 | programming the page that the write pointers have moved on to keeps the invariant, changes one lpn and no other |
| FasterWrite.TargetRoom | OpenSSD-1.1.0/ftl_faster/ftl.c:1930-1940 | at every host write the hash table has room for the entry |
| FasterBank.Bank.constructor | OpenSSD-1.1.0/ftl_faster/ftl.c:333-505 | a formatted bank meets its invariant and reads as erased everywhere |
| FasterBank.Bank.GetFreeVbn | OpenSSD-1.1.0/ftl_faster/ftl.c:1857-1865 | the ring is a queue: the block that has waited longest comes out |
| FasterBank.Bank.RetFreeVbn | OpenSSD-1.1.0/ftl_faster/ftl.c:1866-1876 | and a block returned waits behind the others |
| FasterBank.Bank.GetVpn | OpenSSD-1.1.0/ftl_faster/ftl.c:1133-1160 | bitmap, hash table and mapping tables together lead to the page with the lpn's newest data, in a block of the bank |
| FasterRuns.CorrMeans | OpenSSD-1.1.0/ftl_faster/ftl.c:1332-1353 | the counter is the number of lpns for other blocks since one of them did not follow the lpn noted before it, up to the threshold and one; the reference is the lpn noted last |
| FasterRuns.DetectMeans | OpenSSD-1.1.0/ftl_faster/ftl.c:1332-1353 | a sequence is detected if and only if that number, the new call included, is more than the threshold and one |
| FasterRuns.ChainIsStreak | OpenSSD-1.1.0/ftl_faster/ftl.c:1332-1353 | while no lpn is for the block in the SW log block, it is the number of consecutive lpns at the end of the writes |
| FasterRuns.StreakIs | OpenSSD-1.1.0/ftl_faster/ftl.c:1332-1353 | in general the number of consecutive lpns noted last is that number, less what it was when an append last broke the sequence, and with the appends since |
| FasterRuns.ChainInStreak | OpenSSD-1.1.0/ftl_faster/ftl.c:1332-1353 | it is no more than the number of consecutive lpns if and only if there have been as many appends since as were broken off |
| FasterRuns.DetectedStreak | OpenSSD-1.1.0/ftl_faster/ftl.c:1332-1353 | a detected sequence really is one of more than COR_REF_THRESHOLD + 1 lpns if and only if what was broken off leaves that many, and always when nothing was |
| FasterRuns.DetectsTooSoon | OpenSSD-1.1.0/ftl_faster/ftl.c:1332-1353 | twelve page writes from format on after which an lpn is taken for part of a sequence though only two lpns are consecutive |
| FasterRuns.CorrOfRun | OpenSSD-1.1.0/ftl_faster/ftl.c:1226-1353 | over any run of writes to a formatted bank the fields are those that its calls give |
| FasterStream.GoesToSw | OpenSSD-1.1.0/ftl_faster/ftl.c:1332-1353 | after any run from format on: an lpn of the data block that the SW log block serves goes to that block if and only if its offset is the one behind the lpn that went there last; any other lpn, if and only if the chain of consecutive lpns, it included, is longer than the threshold and one |
| FasterStream.StreamPageIs | OpenSSD-1.1.0/ftl_faster/ftl.c:100 | page n of a stream is page n % P of the n / P-th data block after its first |
| FasterStream.SequentialStream | OpenSSD-1.1.0/ftl_faster/ftl.c:1226-1353 | a sequential stream from format on, of any length, never fails and takes no isolation block; its first five pages go to the RW log, and from the sixth page on exactly the pages of the block that the stream is in are in the log, page o of it as page o of the SW log block, and none once the block is full |
| FasterEnds.StreamBank | OpenSSD-1.1.0/ftl_faster/ftl.c:1226-1477 | a formatted bank to which whole data blocks are written in order ends with nothing in the log, five RW pages and no isolation block used |
| FasterBank.Bank.CopyIntoSwBlock | OpenSSD-1.1.0/ftl_faster/ftl.c:1502-1540 | every offset not yet in the SW block gets the newest copy of its page, and what then sits in the block leaves hash table and bitmap |
| FasterBank.Bank.SwitchMerge | OpenSSD-1.1.0/ftl_faster/ftl.c:1425-1477 | nothing that is read changes, the ring is full again and the SW block serves nobody |
| FasterBank.Bank.PartialMerge | OpenSSD-1.1.0/ftl_faster/ftl.c:1481-1555 | the same for a block completed first; exactly the entries it covers are forgotten |
| FasterBank.Bank.MergeDataBlock | OpenSSD-1.1.0/ftl_faster/ftl.c:1626-1657 | a free block takes over a data block with all its newest pages, and only that block's entries are forgotten |
| FasterBank.Bank.FindVictim | OpenSSD-1.1.0/ftl_faster/ftl.c:1564-1624 | the search stops at the next live page of the victim block or, if none is live, at its last data page, having passed dead pages only; it fails exactly on a stuck pointer |
| FasterBank.Bank.MergeVictim | OpenSSD-1.1.0/ftl_faster/ftl.c:1618-1678 | including the partial merge on the same data block, nothing that is read changes; where entries and pointers end, the early return included, is exact |
| FasterBank.Bank.FullMerge | OpenSSD-1.1.0/ftl_faster/ftl.c:1559-1679 | nothing that is read changes; it fails if and only if the pointer rests on the last data page of a block not recycled, and leaves it there if and only if it turns back |
| FasterControl.StuckAfter | OpenSSD-1.1.0/ftl_faster/ftl.c:1605-1624 | a full merge turns back exactly when the next live victim page is the last data page of its block and belongs to the block that the SW log block serves, behind what is written there |
| FasterBank.Bank.MarkValid | OpenSSD-1.1.0/ftl_faster/ftl.c:1696-1710 | the list in memory names exactly the live pages of the victim; they and the cold ones are counted exactly |
| FasterBank.Bank.KeepLivePages | OpenSSD-1.1.0/ftl_faster/ftl.c:1743-1763 | with few live pages all of them stay in the log in order, each with a second-chance bit |
| FasterBank.Bank.SortLivePages | OpenSSD-1.1.0/ftl_faster/ftl.c:1764-1841 | exactly the cold pages move to the isolation area, in order, and the others stay in order, with a bit; it succeeds if and only if the cold pages need no more blocks than there is room for |
| FasterBank.Bank.GiveSecondChance | OpenSSD-1.1.0/ftl_faster/ftl.c:1712-1727 | a fully live block without bits gets all of them, moves nothing, and its turn passes |
| FasterBank.Bank.GarbageCollection | OpenSSD-1.1.0/ftl_faster/ftl.c:1683-1856 | nothing that is read changes; either the next block in turn is emptied, or its pages get their second chance; where every page ends is exact, and it fails if and only if room is less than needed, by an ASSERT or by an overrun |
| FasterRuns.OverrunsWhen | OpenSSD-1.1.0/ftl_faster/ftl.c:1764-1824 | a write programs a page that is not erased if and only if it collects, no victim page has been merged yet, one isolation block is free and the collection needs two |
| FasterBank.Bank.CollectUntilOpen | OpenSSD-1.1.0/ftl_faster/ftl.c:1190-1199 | the loop ends within one round more than there are RW log blocks, with a block open, and succeeds if and only if the block collected at last finds room; that block is the first in turn that is not all live without second chances |
| FasterBank.Bank.AssignCurWriteRwlogLpn | OpenSSD-1.1.0/ftl_faster/ftl.c:1175-1218 | the RW write pointer ends on an erased page that is nobody's, whatever had to be closed or collected; success and the state left are exact |
| FasterBank.Bank.StartSwLog | OpenSSD-1.1.0/ftl_faster/ftl.c:1255-1303 | a new sequence finds the SW block merged away and holding the pages below its first one |
| FasterBank.Bank.PrepareToNewWrite | OpenSSD-1.1.0/ftl_faster/ftl.c:1226-1306 | the log address returned is the one the moved write pointers name, and nothing that is read has changed; success and the state left are exact; whether the address is in the SW log block is what `FasterStream.GoesToSw` characterises |
| FasterBank.Bank.HostPage | OpenSSD-1.1.0/ftl_faster/ftl.c:1000-1061 | the page programmed is the host's sectors with what the page held left and right of them |
| FasterBank.Bank.MergeAfterWrite | OpenSSD-1.1.0/ftl_faster/ftl.c:1083-1130 | a full SW block is merged; otherwise a victim page is merged exactly when the reserve is reached or a merge is due, unless a collection has just been made; the tuning of the intervals is exact |
| FasterBank.Bank.WriteToLogBlock | OpenSSD-1.1.0/ftl_faster/ftl.c:966-1131 | the addressed sectors of one page change and no other sector does; whether it succeeds, and where all pages are then, is a function of the control state before |
| FasterRuns.WriteOutcome | OpenSSD-1.1.0/ftl_faster/ftl.c:966-1131 | the exact condition for success of a page write, by its kind: collecting, merging or neither |
| FasterRuns.HealthyWrites | OpenSSD-1.1.0/ftl_faster/ftl.c:966-1131 | with room for two isolation blocks and no stuck pointer every write succeeds |
| FasterRuns.FreshWrites | OpenSSD-1.1.0/ftl_faster/ftl.c:966-1131 | the first (K - 1) * (P - 1) writes to a formatted bank succeed, whatever they are |
| FasterMerges.MergeGains | OpenSSD-1.1.0/ftl_faster/ftl.c:1559-1679 | a merge whose pointer is not stuck succeeds and passes at least one more page of the victim block; past its last data page the block is free |
| FasterMerges.MergeClears | OpenSSD-1.1.0/ftl_faster/ftl.c:1605-1657 | after it no page of the victim block up to the one it came to is live, and no entry has been made or moved |
| FasterMerges.MergeBalance | OpenSSD-1.1.0/ftl_faster/ftl.c:1087-1103 | over any run that goes well, from any state: the merges made are at most the data pages of the isolation blocks that have come free, with those passed of the next one; blocks come free by merges only and go by collections only |
| FasterMerges.MergesFree | OpenSSD-1.1.0/ftl_faster/ftl.c:1087-1103 | P - 1 merges free an isolation block, or leave the pointer stuck, if no collection between them has begun one |
| FasterMerges.ReserveRefills | OpenSSD-1.1.0/ftl_faster/ftl.c:1091-1094 | with the reserve reached, so do any P - 1 writes that collect nothing and do not fill the SW log block |
| FasterMerges.MergesPeriodic | OpenSSD-1.1.0/ftl_faster/ftl.c:1095-1103 | above the reserve, as long as lpns go to the RW log, nothing is collected and the interval is n, every 2 * (n + bank)-th write merges a victim page and no other one does |
| FasterMerges.TuneOfRun | OpenSSD-1.1.0/ftl_faster/ftl.c:1107-1126 | after any run from format on the base is between one and P / 4, which base and interval both are in the first period, and the interval has grown at most once in a period of ADJ_PMERGE_PERIOD writes |
| FasterMerges.IncFalls | OpenSSD-1.1.0/ftl_faster/ftl.c:1117-1123 | once the reserve has been reached, the end of a period with two isolation blocks or more in use brings the interval down to the base and takes one off the base, which begins again below P / 4 after one |
| FasterMerges.TuneCases | OpenSSD-1.1.0/ftl_faster/ftl.c:1107-1126 | otherwise the interval grows by one exactly when a period of LOG * P / 8 writes ends with one isolation block in use |
| FasterBank.Bank.ReadSectors | OpenSSD-1.1.0/ftl_faster/ftl.c:846-884 | reading returns the sectors last written, or erased ones |
| FasterFtl.PageHeld | OpenSSD-1.1.0/ftl_faster/ftl.c:937-961 | a page write keeps every bank, the one written and the others, in step with the flat array |
| FasterFtl.Ftl.constructor | OpenSSD-1.1.0/ftl_faster/ftl.c:333-505 | a formatted device is a blank flat array, and the log of each bank has what its bad blocks leave |
| FasterFtl.Ftl.FtlWrite | OpenSSD-1.1.0/ftl_faster/ftl.c:937-961 | a write over any pages and banks overwrites its sectors of the flat array; it succeeds if and only if its pages do, one after the other, from the control states before |
| FasterRuns.OncePerBank | OpenSSD-1.1.0/ftl_faster/ftl.c:937-961 | a write of at most one page to each bank succeeds when the banks have room for two isolation blocks and no stuck pointer |
| FasterFtl.FormatAndWrite | OpenSSD-1.1.0/ftl_faster/ftl.c:333-505 | a formatted bank, written page after page, ends as the run of its control state does |
| FasterFtl.Ftl.FtlRead | OpenSSD-1.1.0/ftl_faster/ftl.c:832-885 | a read returns the sectors of the flat array |
| FasterFtl.Ftl.Run | OpenSSD-1.1.0/ftl_faster/ftl.c:832-961 | over every sequence of commands all reads return what a flat array would; the run comes to its end, or fails, exactly as the run of the control states does |
| FasterLimits.StuckReached | OpenSSD-1.1.0/ftl_faster/ftl.c:1615-1617 | a run of page writes from format on whose n-th write fails the ASSERT on a stuck victim pointer, in every bank with at least four log blocks |
| FasterLimits.ReserveRunsOut | OpenSSD-1.1.0/ftl_faster/ftl.h:121 | a run of page writes from format on after which a collection fails though the reserve of two isolation blocks is free, in every bank with at least five log blocks |
| FasterLimits.OverrunReached | OpenSSD-1.1.0/ftl_faster/ftl.c:1764-1824 | a run of page writes from format on whose last one programs a page that is not erased, in every bank with at least four log blocks more than a block has pages |
| FasterEnds.StuckBank | OpenSSD-1.1.0/ftl_faster/ftl.c:1559-1679 | a formatted bank with four data blocks or more that is written so comes to the ASSERT |
| FasterEnds.ReserveBank | OpenSSD-1.1.0/ftl_faster/ftl.c:1683-1856 | so does one with twice as many data blocks as log blocks |
| FasterEnds.OverrunBank | OpenSSD-1.1.0/ftl_faster/ftl.c:1683-1856 | and such a bank comes to the overrun |
| GreedyState.LiveBound | OpenSSD-1.1.0/ftl_greedy/ftl.c:616-698 | a block has fewer live pages than pages, since its list names one lpn for each |
| GreedyState.VictimBound | OpenSSD-1.1.0/ftl_greedy/ftl.c:704-721 | pigeonhole: with fewer logical pages than P - 2 to a block, the least-filled block has at most P - 3 live pages |
| GreedySteps.WriteChecks | OpenSSD-1.1.0/ftl_greedy/ftl.c:404-515 | at every page write the target page is erased and the counts ASSERTed are in range |
| GreedySteps.WriteOk | OpenSSD-1.1.0/ftl_greedy/ftl.c:491-514 | the page write keeps counts exact and the reverse list true, changes one lpn and no other |
| GreedySteps.ListClosedOk | OpenSSD-1.1.0/ftl_greedy/ftl.c:564-578 | writing the reverse list to the last page closes the block and changes nothing that is read |
| GreedySteps.NextExists | OpenSSD-1.1.0/ftl_greedy/ftl.c:580-590 | while a block is neither full nor the spare one, a later one exists for the scan to find |
| GreedySteps.VcMaxMeans | OpenSSD-1.1.0/ftl_greedy/ftl.c:771-837 | vcount marks exactly the blocks that take no data |
| GreedySteps.GcListed | OpenSSD-1.1.0/ftl_greedy/ftl.c:646-672 | each live page of the victim is found under its own lpn in the victim's list |
| GreedySteps.GcMovedOk | OpenSSD-1.1.0/ftl_greedy/ftl.c:646-672 | moving it and compacting the list in place changes nothing that is read and clobbers no entry still to be read |
| GreedySteps.GcMovedCounts | OpenSSD-1.1.0/ftl_greedy/ftl.c:646-680 | it makes one live page less in the victim and one more in the spare block |
| GreedySteps.GcEndedOk | OpenSSD-1.1.0/ftl_greedy/ftl.c:673-698 | erasing the emptied victim and making it the spare block restores exact counts |
| GreedySteps.VictimOk | OpenSSD-1.1.0/ftl_greedy/ftl.c:704-721 | when every block is full, a block of least count is a data block, its count is exact and leaves room for two pages |
| GreedySteps.FormatOk | OpenSSD-1.1.0/ftl_greedy/ftl.c:771-837 | the tables set after format meet the invariant with every page blank |
| GreedyBank.Bank.constructor | OpenSSD-1.1.0/ftl_greedy/ftl.c:722-837 | a formatted bank meets its invariant and reads as erased |
| GreedyBank.Bank.GetVtVblock | OpenSSD-1.1.0/ftl_greedy/ftl.c:704-721 | some block of least count is returned |
| GreedyBank.Bank.MoveLivePages | OpenSSD-1.1.0/ftl_greedy/ftl.c:646-687 | without a clash exactly vcount pages move, none is left behind, and nothing that is read changes; on a clash, and only then, the count ASSERTed is wrong |
| GreedyBank.Bank.GarbageCollection | OpenSSD-1.1.0/ftl_greedy/ftl.c:616-698 | an ASSERT fires if and only if the block collected clashes with lpn 0; else a least-filled block becomes the erased spare, the former spare is written on behind the pages moved, and nothing that is read changes |
| GreedyBank.Bank.NextVblock | OpenSSD-1.1.0/ftl_greedy/ftl.c:580-590 | the scan ends at the next open block and never reaches VBLKS_PER_BANK |
| GreedyBank.Bank.AssignNewWriteVpn | OpenSSD-1.1.0/ftl_greedy/ftl.c:552-603 | an erased page is found and nothing that is read changes, unless, exactly, a block that clashes is collected |
| GreedyBank.Bank.WritePage | OpenSSD-1.1.0/ftl_greedy/ftl.c:404-515 | the addressed sectors of one page change and no other sector does; it fails if and only if it collects a block that clashes with lpn 0 |
| GreedyBank.Bank.ReadSectors | OpenSSD-1.1.0/ftl_greedy/ftl.c:317-376 | reading returns the sectors last written, or erased ones |
| GreedyBank.ClashReached | OpenSSD-1.1.0/ftl_greedy/ftl.c:646-687 | page writes to two freshly formatted banks after which a collection moves one page too many, for all sizes and all good blocks behind the metadata area such that the first data block of the one is a later good block of the other |
| GreedyFtl.Ftl.WritePage | OpenSSD-1.1.0/ftl_greedy/ftl.c:377-403 | a page write to any bank overwrites its sectors of the flat array that all banks together hold; it fails if and only if its bank collects a block that clashes with lpn 0 |
| GreedyFtl.Ftl.FtlWrite | OpenSSD-1.1.0/ftl_greedy/ftl.c:377-403 | a write overwrites its sectors of the flat array, over all banks; if it fails, the bank of the first page not written was collecting a block that clashes, and the sectors before that page have been written |
| GreedyFtl.Ftl.FtlRead | OpenSSD-1.1.0/ftl_greedy/ftl.c:317-376 | a read returns the sectors of the flat array |
| GreedyFtl.Ftl.Run | OpenSSD-1.1.0/ftl_greedy/ftl.c:317-403 | over every sequence of commands to any number of banks all reads return what a flat array would, up to the write that meets the first clash; with one bank no ASSERT ever fires |
| GreedyPower.EndsAgree | OpenSSD-1.1.0/ftl_greedy/ftl.c:881-942 | at whole sectors the rounded and the unrounded end of a table are passed together |
| GreedyPower.ChunkEnds | OpenSSD-1.1.0/ftl_greedy/ftl.c:1013-1077 | so saving and loading, which use one end each, stop at the same chunk with as much to go |
| GreedyPower.MapBlocksSuffice | OpenSSD-1.1.0/ftl_greedy/ftl.c:881-942 | the map blocks of all banks together hold the page map |
| GreedyPower.SlicesSuffice | OpenSSD-1.1.0/ftl_greedy/ftl.c:839-880 | the vcount slices of all banks together cover the table |
| GreedyPower.LoggedOk | OpenSSD-1.1.0/ftl_greedy/ftl.c:881-942 | saving a chunk in its map block, erased before if full, keeps the metadata area sound |
| GreedyPower.LoggedHeld | OpenSSD-1.1.0/ftl_greedy/ftl.c:881-942 | and keeps every chunk saved before |
| GreedyPower.Store.LoggingPmapTable | OpenSSD-1.1.0/ftl_greedy/ftl.c:881-942 | the pages that the map block pointers name then hold the whole page map |
| GreedyPower.Store.LoggingMiscMetadata | OpenSSD-1.1.0/ftl_greedy/ftl.c:839-880 | the last written page of each misc block then holds that bank's metadata and its slice of vcount |
| GreedyPower.Store.FtlFlush | OpenSSD-1.1.0/ftl_greedy/ftl.c:302-309 | all that memory knows is on flash, after any number of flushes before |
| GreedyPower.Store.LoadMiscMetadata | OpenSSD-1.1.0/ftl_greedy/ftl.c:950-1012 | the backward scan finds the newest page of each bank and restores metadata and vcount |
| GreedyPower.Store.LoadPmapTable | OpenSSD-1.1.0/ftl_greedy/ftl.c:1013-1077 | the page map is restored word for word |
| GreedyPower.Store.LoadMetadata | OpenSSD-1.1.0/ftl_greedy/ftl.c:944-948 | from what a flush left on flash, all tables are restored whatever memory held |
| GreedyPower.Store.PowerCycle | OpenSSD-1.1.0/ftl_greedy/ftl.c:302-309 | flush, loss of memory and load together change no table, and leave a store that can be flushed again |
| GreedyDevice.VpnRoundTrip | OpenSSD-1.1.0/ftl_greedy/ftl.c:116-125 | NULL and every page of a bank are numbers of their own in the page map |
| GreedyDevice.ListRoundTrip | OpenSSD-1.1.0/ftl_greedy/ftl.c:839-880 | the lpn list of a bank comes back from the numbers saved |
| GreedyDevice.Device.Save | OpenSSD-1.1.0/ftl_greedy/ftl.c:302-309 | the words that the metadata code saves say of every bank what its tables say |
| GreedyDevice.Device.LoadedSame | OpenSSD-1.1.0/ftl_greedy/ftl.c:944-948 | page map, counts, write pointer and lpn list of a bank are determined by those words |
| GreedyDevice.Device.PowerCycle | OpenSSD-1.1.0/ftl_greedy/ftl.c:302-309 | after a flush, the loss of all that memory held, tables of the banks included, and a load, all banks meet their invariants and every sector reads as before |
| GreedyDevice.Device.Run | OpenSSD-1.1.0/ftl_greedy/ftl.c:302-403 | in any run of host commands and power cycles all reads return what a flat array would, up to the first clash |
| RequestRing.WriteKeeps | PCModule2/client/issd_Compute_client.c:110-122 | a producer about to write finds its slot free, so no unread packet is overwritten |
| RequestRing.ReadKeeps | PCModule2/server/reqQueue.c:83-100 | a consumer about to read finds the oldest unread packet |
| RequestRing.StepKeeps | PCModule2/server/reqQueue.c:83-100 | every atomic step of any process keeps the invariant |
| RequestRing.CreatedOk | PCModule2/server/reqQueue.c:64-71 | the ring starts within the invariant |
| RequestRing.InOrder | PCModule2/server/reqQueue.c:83-100 | in every run packets come out as a prefix of those written, the others wait in their slots, and slots are conserved |
| RequestRing.OwnPackets | PCModule2/server/reqQueue.c:83-100 | in every run the packets that a producer has come with are those that it has written, in order, and the one in its hands; each time a consumer has come it has read one packet, and the packet it holds or has got is the one that it read last itself |
| RequestRing.ReadsItsOwn | PCModule2/server/reqQueue.c:88 | in every run the consumer that reads next holds the oldest packet not read yet |
| RequestRing.HandedOver | PCModule2/client/issd_Compute_client.c:110-122 | for any packets, producers and consumers there is a run in which they are handed over one after the other, each by its producer to its consumer |
| RequestRing.MutualExclusion | PCModule2/client/issd_Compute_client.c:110-122 | in every run at most one producer and one consumer are inside their critical sections |
| RequestRing.NeverStuck | PCModule2/server/reqQueue.c:83-100 | in every run, while a producer and a consumer are on their way some process can take a step |
| DeviceRouter.RoutedUnique | PCModule2/server/reqPRoutine.c:281-335 | no device ever has two entries in use |
| DeviceRouter.RoutedWhen | PCModule2/server/reqPRoutine.c:295-335 | a worker is found if and only if the device has an entry or some entry is not in use |
| DeviceRouter.RealDevIs | PCModule2/server/reqPRoutine.c:286-291 | the device of a name is disk d if and only if the name has d behind its first five characters, and at most one digit more |
| DeviceRouter.Partition | PCModule2/server/reqPRoutine.c:286-291 | so it is for /dev/d and for each of its partitions, names written out |
| DeviceRouter.SurvivesOnce | PCModule2/server/reqPRoutine.c:295-309 | a device asked for since the last refresh keeps its entry at the next one |
| DeviceRouter.OneWorkerInOrder | PCModule2/server/reqPRoutine.c:281-335 | in any run from the start, a device that has room when it is asked for first and is asked for between any two refreshes has all its requests with one worker: those taken, and behind them those in its queue, are the requests in dispatch order; no other worker has any |
| DeviceRouter.DiskInOrder | PCModule2/server/reqPRoutine.c:281-335 | so are all requests for a disk and for its partitions, whichever they are, told by their names |
| DeviceRouter.AskTwice | PCModule2/server/reqPRoutine.c:281-335 | asked for twice in a row, by any of its names, a disk gets the same worker |
| DeviceRouter.NeverFull | PCModule2/server/reqPRoutine.c:295-335 | with at most 2n devices since the last refresh but one a dispatch finds a worker |
| DeviceRouter.FewDevices | PCModule2/server/reqPRoutine.c:295-335 | so it does for every device of a run with at most 2n devices in all |
| DeviceRouter.Overfull | PCModule2/server/reqPRoutine.c:317-328 | after requests for any 2n different devices, the timer not going off, a request for another one comes to the worker index -1 |
| DeviceRouter.Overfill | PCModule2/server/reqQueue.c:102-115 | a server that is sent them uses that index |
| DeviceRouter.Server.Run | PCModule2/server/reqPRoutine.c:281-335 | the server goes through the states that the theorems speak of |
| DeviceRouter.Server.RefreshTable | PCModule2/server/reqPRoutine.c:297-309 | entries not asked for since the last refresh are let go, and all marks are cleared |
| DeviceRouter.Server.GetProcessRoutineIdx | PCModule2/server/reqPRoutine.c:281-335 | the device's own entry, or else the first unused one, decides the worker; -1 means that the table is full |
| DeviceRouter.Server.AddReqWork2Routine | PCModule2/server/reqPRoutine.c:238-274 | with memory the request goes behind all others of that worker and no other queue changes; without, -1 is returned and nothing changes |
| DeviceRouter.Server.TakeWork | PCModule2/server/reqPRoutine.c:98-113 | a worker takes its oldest request |
| DeviceRouter.Server.DispatchReqPacket | PCModule2/server/reqQueue.c:102-115 | exactly the routed worker's queue grows; without memory the client gets a negative feedback; -1 is used as a worker's index if and only if there is memory and no entry to be had |
| BankTurns.FirstRound | OpenSSD-1.1.0/ftl_tutorial/ftl.c:467-468 | NB page writes in a row go to NB different banks, each bank's turn coming when it is its place behind the first |
| BankTurns.Rounds | OpenSSD-1.1.0/ftl_tutorial/ftl.c:467-468 | r rounds go r times to each bank |
| BankTurns.TurnsJoin | OpenSSD-1.1.0/ftl_tutorial/ftl.c:467-468 | writes are counted on from the bank whose turn it is |
| BankTurns.Capacity | OpenSSD-1.1.0/ftl_tutorial/ftl.c:631-660 | NB banks with r pages each take NB * r page writes and no more, whichever bank is first |
| BankTurns.UsableAll | OpenSSD-1.1.0/ftl_tutorial/ftl.c:631-660 | without bad vblocks every row counts as a page left |
| SectorStore.UsedUp | OpenSSD-1.1.0/ftl_tutorial/ftl.c:631-660 | a bank has no page left if and only if its next page begins a vblock and only bad ones are left |
| SectorStore.Store.constructor | OpenSSD-1.1.0/ftl_tutorial/ftl.c:42-173 | no page is mapped at first, it is the turn of bank 0, and each bank has all pages in good vblocks but the first vblock's |
| SectorStore.Store.GetFreePage | OpenSSD-1.1.0/ftl_tutorial/ftl.c:631-660 | the next page that is in no bad vblock is returned, erased, and the bank has one page less; the store stops if and only if the bank has none left |
| SectorStore.Store.WritePage | OpenSSD-1.1.0/ftl_tutorial/ftl.c:457-562 | the new sectors and around them the old ones are in a fresh page of the bank whose turn it is, and it is the next bank's turn; other pages keep theirs; it fails if and only if that bank has no page left |
| SectorStore.Store.IssdWriteSectors | OpenSSD-1.1.0/ftl_tutorial/ftl.c:457-564 | the sectors read as the buffer's, and every other sector written before reads as before; it succeeds if and only if each bank has as many pages left as come to its turn; if not, it stops at the bank that has none, and the same holds of the sectors before |
| SectorStore.Store.IssdReadSectors | OpenSSD-1.1.0/ftl_tutorial/ftl.c:272-325 | the sectors come to the buffer at their offset in the first page; it fails if and only if some page was never written |
| SectorStore.HolesFilled | OpenSSD-1.1.0/ftl_tutorial/ftl.c:500-545 | filling the left and the right hole one after the other gives the new sectors in the old page |
| FileCopy.RunEnd | PCModule2/server/issd_compute.c:120-121 | the inner loop ends at the end of a run of consecutive blocks, which is one run of sectors |
| FileCopy.PostProcess | PCModule2/server/issd_compute.c:112-138 | expanding the extents gives back the sectors of the block list in order, and no two neighbours could be joined; it succeeds if and only if there are no blocks, or fewer runs of consecutive blocks than entries left |
| FileCopy.ExactlyFull | PCModule2/server/issd_compute.c:130-134 | for every number of entries there is a file with just as many extents, and it is refused |
| FileCopy.MaximalUnique | PCModule2/server/issd_compute.c:112-138 | such extents are determined by the sectors |
| FileCopy.FileSectorAt | PCModule2/server/issd_compute.c:112-138 | sector j of block i of a file is sector j of that block on the device, counted from the start of the partition |
| FileCopy.ChunkSize | OpenSSD-1.1.0/issd/issd.c:86-103 | a chunk never overruns the buffer of ISSD_CNT_PAGES pages, for any alignment, and is never empty; it is all that is left of the extent, or fills the buffer to its end |
| FileCopy.CopiedMore | OpenSSD-1.1.0/issd/issd.c:127-175 | writing on at the place reached extends what has been copied, as long as input and output are apart |
| FileCopy.WriteOut | OpenSSD-1.1.0/issd/issd.c:127-175 | a chunk is scattered over the output extents in order, from any place in any extent; if it stops, the sectors before that place have been copied |
| FileCopy.SectorsMean | OpenSSD-1.1.0/issd/issd.c:127 | the number of sectors written for n bytes is the one number c with n <= 512 * c < n + 512 |
| FileCopy.DoIssdBackup | OpenSSD-1.1.0/issd/issd.c:37-186 | the sectors of the input are copied in order until they are all copied or hold all bytes of the file, one sector and no more being begun behind its last whole one; no other sector changes; in every outcome the number copied is known, a failing read is of a sector in the next chunk that was never written, extents run out only when the output is full, and the flash is full only when the bank whose turn it is has no page |
| FileCopy.BlocksCover | PCModule2/server/issd_compute.c:56-62 | the sectors of the blocks counted for a file hold all its bytes, and less than a block more |
| FileCopy.CopyFile | OpenSSD-1.1.0/issd/issd.c:37-186 | end to end: when it is done, the output file's sectors hold the input file's, c of them with fileSize <= 512 * c < fileSize + 512; it is refused if and only if the extents of both files do not fit, those of the output behind those of the input; output extents never run out; when the flash is full, the banks in turn had just the pages written, and not one more |

## Left out

- FasterFtl.Ftl.Run: says nothing of what is read after a write that has failed, since the firmware has stopped or has lost data by then.
- FasterLimits.OverrunReached: the run is for banks with at least P + 4 log blocks, that of StuckReached for four and that of ReserveRunsOut for five; for fewer the exact conditions hold, but no run is given.
- DeviceRouter.Server.AddReqWork2Routine: a worker's linked list of requests is a sequence; the walk to its end is not modelled.
- DeviceRouter.Server.DispatchReqPacket: what the source does with index -1 is not modelled beyond saying that it comes to that.
- DeviceRouter.Server.GetProcessRoutineIdx: device names shorter than "/dev/x" are excluded, for which the source reads outside its buffer; names that overflow the buffer are not modelled.
- RequestRing.NeverStuck: says that some process can go on, not that each one gets its turn.
- Addresses: pages are pairs of block and offset; Striping shows that the source's numbers convert without loss. Bitmaps are sets, DRAM tables sequences, and the hash function is any function.
- Integer width: counters and addresses are unbounded; wrap-around of UINT32 is not modelled. INVALID is None, (UINT32)-1 of the pointers included.
- Flash is synchronous, and there are no read or write errors; asynchronous issue, the SATA buffer pointers, registers, interrupts and ECC gaps in DRAM are not modelled.
- Bad blocks are given as the list of good ones found by format; blocks that go bad later are not modelled.
- Sizes are symbolic: FASTer needs a P that is a multiple of 128, as its bitmap copies and list reads do, ISOL of at least 8 as in ftl.h, two log blocks and one data block; greedy needs P of at least 4 and below VC_MAX, and in each bank fewer logical pages than its data blocks can hold less two pages each; every bank has the same number of logical pages.
- GreedyFtl.Ftl.Run: gives one direction for a whole run, that a run which fails ends in a clash; the if and only if is that of a page write, GreedyFtl.Ftl.WritePage. Which of several least-filled blocks is collected is left to the hardware search, so a run does not decide it. Nothing is said of what is read afterwards.
- GreedyFtl.Ftl.FtlWrite: likewise one direction over several pages.
- GreedyDevice.Device.Run: the power goes off right after a flush; a power failure at any other moment loses what the tables said, in the source too.
- FileCopy.CopyFile: which of its ends a copy comes to is told by the pages and sectors written until then; the number of page writes that a copy takes, chunk by chunk, is only bounded, by the number of its sectors.
- The greedy metadata of different banks are together in GreedyPower, with table entries instead of bytes; between flushes the tables may change in any way.
- Semaphores and mutexes are atomic steps; processes that die while holding one are not modelled.
- Sectors of a fresh page in the tutorial store that were not written hold what the buffer held; nothing is promised of them.
- Metadata flush and load of FASTer, its issd_read_sectors, the DAC FTL, ftl_dummy, wear counters and statistics, the installer, SATA commands, the FIBMAP, fallocate and daemon parts of the host service, and PCModule.
