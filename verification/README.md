# BigOS kernel and libc: a Dafny model

This project models the parts of BigOS (a C++ kernel with a C library) in which
a mistake is hardest to see by reading one function, and proves what they
promise for every input, every run and every interleaving:

* **User address spaces** (`Paging`, `PageTree`, `PageTableMetadata`,
  `AddressSpaces`, `AddressSpaceRuns`, `TeardownSpec`, `Teardown`, `FrameRefs`,
  `FrameRuns`, `UserMemory`, `UserMemoryRuns`, `UserCopy`, `UserViews`): four-level
  page tables with ownership records, entry counts, rollback, reclaim and teardown,
  the counts of shared frames, both together through the whole life of user memory
  (demand paging, copy-on-write fork and split, protection, unmapping, teardown),
  and copies to and from user memory.
* **Cross-CPU protocols** (`TlbShootdown`, `TlbPages`, `MmContext`): the TLB
  shootdown and the reference-counted address-space context, as state machines
  over atomic steps.
* **Block requests** (`BlockRequests`, `BlockIo`, `BlockQueues`, `BlockRuns`):
  generation-stamped queue slots and the race to publish one outcome.
* **Allocators** (`BuddyLists`, `BuddyZone`, `PageAllocator`, `MemoryRegions`,
  `BootMemory`, `RangeLists`, `KernelRanges`, `Bitset`, `SlabImages`, `SlabCache`,
  `SlabRuns`): buddy zones, the boot memory map, kernel virtual ranges, slabs over
  packed bitmaps.
* **Streams** (`Bytes`, `UnbufferedStream`, `Stdio`, `StreamRuns`): buffered
  streams against an unbuffered file.
* **Codecs** (`DnsNames`, `DnsEncode`, `DnsWalk`, `DnsMessages`, `DnsRoundTrip`,
  `Numerals`, `NumberText`, `NumberParse`): DNS names and messages (sections 3.1
  and 4.1 of RFC 1035), number printing and parsing (section 7.22.1.4 of ISO/IEC
  9899:2018).

The model takes the form of the code: state that the code updates in place is a
class whose methods are proved against a value of the whole state (`Img`, `View`,
`File`), and the laws are lemmas about those values. A lock-protected section is
one atomic method, and a store made outside the lock is a step of its own. Metadata
allocation succeeds or fails freely and does not call
back into the allocator it serves. `dafny verify dfyconfig.toml` checks
everything.

## What the code does not promise

Properties one would expect that are false of the code, with the exact condition
under which they hold:

* Reclaiming an emptied PDPT leaves the root's entry count one too high. Over any
  run the count is the present low-half entries plus the discards that vacated one
  (`AddressSpaceRuns.Run`, `UserMemory.SurplusIsHistory`); teardown of a root
  succeeds exactly when there was none since it was derived
  (`UserMemoryRuns.DestroySpace`), so deriving, mapping one page, unmapping it and
  tearing down always fails (`UserMemoryRuns.RootIsNeverGivenBack`). A root whose
  count has reached 512 can map no page under a new PML4 entry
  (`AddressSpaces.PageTables.MapRootPage`).
* Copy-on-write isolation, a writable page being alone on its frame, survives an
  event exactly when that does not make a shared page without the copy-on-write
  mark writable (`UserMemory.IsolationKeptIff`). Protecting a shared page read-only
  drops the mark and protecting it writable again does just that
  (`UserMemory.ProtectionForgetsTheMark`).
* After a shootdown requester gave up, later shootdowns can be trusted exactly
  when no earlier interrupt is still outstanding
  (`TlbShootdown.TrustIffNothingOutstanding`); a run that loses the guarantee is
  `TlbShootdown.GivingUpLosesTrust`.
* The local invalidation loop drops nothing when the range reaches the last page
  of the address space (`TlbPages.DropsNamedPages`, `TlbPages.LastPageStays`).
* A boot region contributes exactly its whole pages exactly when it ends below the
  top of the address space or starts in its last page and ends within a page of the
  top (`MemoryRegions.SpanIsWholePagesIff`). Else the region is dropped
  (`MemoryRegions.LastPageIsDropped`) or low pages are handed out instead
  (`MemoryRegions.LastByteHandsOutLowPages`).
* Pages of the kernel image are handed out exactly when a region lies wholly inside
  it (`MemoryRegions.ImageIsSparedUnlessAlone`, `MemoryRegions.FirstImagePageGoes`).
* A kernel range whose split runs out of metadata is put at the end of the free
  list, which stays sorted exactly when the range was last
  (`KernelRanges.AppendKeepsOrderIffLast`, `KernelRanges.RangeTable.Alloc`).
* Arming a block request stores its status after the queue lock is released. A
  waiter is told the outcome of its arm exactly when that was not published
  between the two steps (`BlockRuns.Run`); with a cancellation there it is told
  that it would block (`BlockRuns.CancelledBeforeStored`, `BlockRuns.OneRequestMisled`).
* Cancelling a request works on a missing queue exactly when the table of queues is
  full and none is the device's (`BlockQueues.BlockQueues.Cancel`,
  `BlockRuns.NinthDeviceFaults`).
* A block token recurs exactly after a multiple of 2^32 - 1 uses of its slot
  (`BlockIo.TokensRepeat`).
* A failed `fseek` leaves the stream as it was exactly when nothing was pushed back
  and, from the start or the current position, nothing was buffered for reading or,
  from the end, the stream stood there; or when the current position could not be
  told (`Stdio.Stream.Seek`). A pushed-back byte is lost
  (`StreamRuns.FailedSeekLosesByte`).
* A copy to user memory comes back unchanged for all data exactly when two pages on
  one frame are so far apart that their parts of the range do not overlap; for whole
  pages, when all frames are distinct (`UserCopy.RoundTripIffFramesApart`). Under
  copy-on-write isolation they are (`UserViews.IsolatedRangesAreApart`).
* The DNS parser skips the owners of records: the addresses it returns are those of
  the name asked for exactly when no address record has another owner
  (`DnsMessages.AddressesAreOwnIff`), and an address of any other name is taken for
  the answer (`DnsRoundTrip.StrangerIsAccepted`).
* The 32-character buffer of the number printer holds every word exactly from base 4
  on (`NumberText.WordsFitIff`); the callers use 10 and 16.
* `strtol` consumes nothing of a hex prefix without digits, where the standard
  consumes the zero; elsewhere they agree (`NumberParse.AgreesWithIsoIff`,
  `NumberParse.BareHexStops`).

## Model

| member | source | states |
|---|---|---|
| `Paging.PathIsBijective` | kernel/mm/vmem.cc:29-39 | a low-half page address and its four table indexes determine each other |
| `Paging.PackIsFaithful` | kernel/mm/vmem.cc:664-669 | an entry word gives back the frame and the attributes packed into it |
| `PageTree.WalkIsTrans` | kernel/mm/vmem.cc:594-613 | on every well-formed forest the four-step table walk finds exactly the translation of the path |
| `PageTree.LinkKeepsForest` | kernel/mm/vmem.cc:529-570 | linking a new table keeps owners, counts, keys and every slot consistent |
| `PageTree.UnlinkKeepsForest` | kernel/mm/vmem.cc:722-780 | unlinking an empty table keeps the forest consistent, the root count allowing for the leak |
| `PageTree.UnlinkUndoesLink` | kernel/mm/vmem.cc:235-244 | undoing a link gives back the very state before it |
| `PageTree.SetSlotTranslation` | kernel/mm/vmem.cc:657-675 | writing a leaf slot changes the translation of exactly one page of one root |
| `PageTree.TablesAreNeeded` | kernel/mm/vmem.cc:722-780 | a lower table is registered if and only if some page below it is mapped |
| `PageTableMetadata.MetadataTable.Register` | kernel/mm/vmem.cc:182-195 | records a frame, failing exactly when it is recorded already or every slot is used |
| `PageTableMetadata.MetadataTable.Unregister` | kernel/mm/vmem.cc:197-201 | forgets one frame and no other |
| `PageTableMetadata.MetadataTable.Increment` | kernel/mm/vmem.cc:210-218 | adds one to one record's count, refusing at 512 |
| `PageTableMetadata.MetadataTable.Decrement` | kernel/mm/vmem.cc:220-228 | takes one from one record's count, refusing at zero |
| `PageTableMetadata.FullIsCapacity` | kernel/mm/vmem.cc:182-195 | the table is full exactly when it records as many frames as it has slots |
| `AddressSpaces.PageTables.EnsureOwned` | kernel/mm/vmem.cc:529-570 | descends into or creates one owned table, recording what it created |
| `AddressSpaces.PageTables.ClearOwned` | kernel/mm/vmem.cc:235-244 | undoes the recorded tables, newest first, back to the state before them |
| `AddressSpaces.PageTables.MapRootPage` | kernel/mm/vmem.cc:615-677 | success maps exactly the one page, which was absent; with the leaf table there and the path readable it succeeds on every absent page; failure at any level leaves translations, records, counts and live frames as they were but for USER bits |
| `AddressSpaces.PageTables.MapPageInRoot` | kernel/mm/vmem.cc:1447-1451 | refuses unaligned addresses, and otherwise maps exactly the one page or nothing, under the same condition |
| `AddressSpaces.PageTables.DeriveRoot` | kernel/mm/vmem.cc:1418-1445 | a new root maps no low page and disturbs no other root; failure changes nothing |
| `AddressSpaces.PageTables.RootPte` | kernel/mm/vmem.cc:594-613 | the walk arrives exactly when the leaf table exists and the kernel can reach every table on the path, and then names that path |
| `AddressSpaces.PageTables.ReclaimEmpty` | kernel/mm/vmem.cc:722-780 | frees the tables on the path that became empty, exactly those, and keeps every translation |
| `AddressSpaces.PageTables.UnmapUserPage` | kernel/mm/vmem.cc:1290-1327 | succeeds exactly on mapped user pages, returns their frame, removes exactly that translation, and adds one to the surplus of the root count exactly when the PDPT of the page goes |
| `AddressSpaces.PageTables.RemapUserPage` | kernel/mm/vmem.cc:1605-1618 | replaces exactly one user page's frame and attributes |
| `AddressSpaces.PageTables.ReadUserLeaf` | kernel/mm/vmem.cc:1588-1603 | the frame and attributes of exactly the mapped user pages |
| `AddressSpaceRuns.TableIffPage` | kernel/mm/vmem.cc:722-780 | between calls a lower table exists exactly when the plain map has a page below it |
| `AddressSpaceRuns.Run` | kernel/mm/vmem.cc:615-677 | after any run of map, unmap and remap on any user roots the tables stand for the plain map those calls build; success exactly where the map allows it, a mapping failing only for want of a table; and each root count exceeds its present entries by the unmaps that vacated one |
| `FrameRefs.RefTable.Increment` | kernel/mm/vmem.cc:1550-1565 | records one more owner unless the count would wrap; the slot always encodes the owners (0 for one, n for n, never 1) |
| `FrameRefs.RefTable.Decrement` | kernel/mm/vmem.cc:1567-1580 | drops one owner and frees the frame exactly at the last |
| `FrameRefs.RefTable.IsShared` | kernel/mm/vmem.cc:1582-1586 | true exactly for a frame with two or more owners |
| `FrameRefs.SizeTable` | kernel/mm/vmem.cc:1493-1539 | the block asked for holds every count used; frames stay uncovered only when the table is already as large as a block can be |
| `FrameRuns.Run` | kernel/mm/vmem.cc:1541-1586 | over any history of adopting, sharing and dropping, the 16-bit counts follow the sets of owners exactly |
| `FrameRuns.FreedOncePerAdoption` | kernel/mm/vmem.cc:1567-1580 | over any history a frame is given back once for every time it was adopted, but for the time it is still owned |
| `Teardown.TeardownFrom` | kernel/mm/vmem.cc:782-866 | tears down every slot of a table from one index on: each table below freed once, each leaf's owner dropped once |
| `Teardown.TeardownUserAddressSpace` | kernel/mm/vmem.cc:1474-1491 | frees every table frame of the root once and drops one owner per present leaf, leaving other roots alone and losing no frame; succeeds exactly when the root count has no surplus |
| `UserMemory.IsolationKeptIff` | kernel/core/proc/proc.cc:1031-1050 | an event keeps every writable page alone on its frame if and only if it does not make a shared, unmarked page writable |
| `UserMemory.RunsStayIsolated` | kernel/core/proc/proc.cc:1946-2014 | so does every run without such an event |
| `UserMemory.ProtectionForgetsTheMark` | kernel/core/proc/proc.cc:1031-1050 | fork, protect read-only, protect writable: two spaces write to one frame |
| `UserMemory.SurplusIsHistory` | kernel/mm/vmem.cc:722-780 | the surplus of a root is the number of discards since it was derived that vacated an entry of its table |
| `UserMemoryRuns.MaterializePage` | kernel/core/proc/proc.cc:3580-3587 | maps a fresh frame at an absent page, or changes nothing and keeps the frame |
| `UserMemoryRuns.ClonePage` | kernel/core/proc/proc.cc:1984-2014 | fork shares the frame of a user page with an absent page of the child, both marked and read-only if it was writable, or changes nothing |
| `UserMemoryRuns.SplitPage` | kernel/core/proc/proc.cc:3606-3647 | a marked page becomes private in place exactly when it is alone on its frame, and else moves to a fresh frame |
| `UserMemoryRuns.ProtectPage` | kernel/core/proc/proc.cc:1031-1050 | gives exactly the present user pages their new attributes |
| `UserMemoryRuns.DiscardPage` | kernel/core/proc/proc.cc:839-848 | unmaps exactly the user pages and frees a frame exactly with its last page |
| `UserMemoryRuns.DestroySpace` | kernel/core/proc/proc.cc:1019-1029 | ends all pages of the root and no other; succeeds exactly when no discard ever vacated an entry of its root table |
| `UserMemoryRuns.Perform` | kernel/core/proc/proc.cc:1946-2014 | one event, whichever it is: the frames of user data that enter the free frames are exactly those that lose their last page, and those newly mapped come out of the free frames |
| `UserMemoryRuns.Run` | kernel/core/proc/proc.cc:1946-2014 | over any run of these events, whatever allocation does, tables and counts stand for the plain account, every outcome is right, no frame is lost, and every event moves the free frames as the account says |
| `UserMemoryRuns.ReturnedOncePerTaking` | kernel/mm/vmem.cc:1567-1580 | over any such run a frame enters the free frames once for every time it was taken from them for user data, but for the time it is still mapped |
| `UserMemoryRuns.OwnersArePages` | kernel/mm/vmem.cc:1541-1586 | the owners of a frame are as many as the pages that map it |
| `UserMemoryRuns.EveryFrameAccountedFor` | kernel/mm/vmem.cc:1541-1586 | every frame is exactly one of free, a page table, or mapped, and its count slot reads how many pages map it |
| `UserMemoryRuns.RootIsNeverGivenBack` | kernel/mm/vmem.cc:722-780 | derive, materialise, discard, tear down: the teardown fails and the root stays |
| `TlbShootdown.ReturnsAreTruthful` | kernel/mm/vmem.cc:1035-1106 | in every interleaving without a give-up, a returned request means every target has invalidated its pages since the call began |
| `TlbShootdown.AcksAreOwn` | kernel/mm/vmem.cc:1095-1106 | an acknowledgement seen by a requester was earned by that request on that CPU |
| `TlbShootdown.FalseAck` | kernel/mm/vmem.cc:1074-1083 | from a handler past its check, a run in which a request returns although its target did nothing for it |
| `TlbShootdown.TrustIffNothingOutstanding` | kernel/mm/vmem.cc:299-307 | from a quiet state, all later runs are truthful if and only if no earlier interrupt is outstanding |
| `TlbShootdown.GivingUpLosesTrust` | kernel/mm/vmem.cc:299-307 | a run from the start, with one give-up, to a quiet state that cannot be trusted |
| `TlbPages.InvalidateLocally` | kernel/mm/vmem.cc:281-297 | exactly which pages the 64-bit loop drops |
| `TlbPages.DropsNamedPages` | kernel/mm/vmem.cc:281-297 | it drops the pages named if and only if the range ends before the last page, and otherwise none |
| `TlbPages.LastPageStays` | kernel/mm/vmem.cc:281-297 | a request for the last page drops nothing |
| `TlbPages.ReturnedMeansDropped` | kernel/mm/vmem.cc:1035-1106 | in every interleaving without a give-up, a returned request that does not reach the last page means every target has dropped every page it names |
| `MmContext.CountsAndResidence` | kernel/mm/mm_context.cc:42-122 | at every point of every interleaving: residence implies mask bit and life, the count is owners plus holding CPUs, freed contexts have neither |
| `MmContext.StepsAreSafe` | kernel/mm/mm_context.cc:42-122 | no step sets a mask bit of a dying context, revives one, or frees twice |
| `BlockRequests.Validate` | kernel/core/block_io.cc:93-122 | success exactly for requests to a known device, within its sectors, whose byte count does not overflow and fits the buffer |
| `BlockRequests.GenerationsRepeat` | kernel/core/block_io.cc:351-355 | two generations of a slot agree exactly when their distance is a multiple of 2^32 - 1 |
| `BlockIo.EnqueueKeeps` | kernel/core/block_io.cc:330-369 | placing a request, whose status is stored later, keeps slots, requests, generations and arms in agreement |
| `BlockIo.PublishKeeps` | kernel/core/block_io.cc:307-317 | so does publishing an outcome |
| `BlockIo.ReleaseKeeps` | kernel/core/block_io.cc:371-391 | so does giving a slot back |
| `BlockIo.TouchTells` | kernel/core/block_io.cc:486-487 | which stores keep every finished request saying its outcome, or known to have been written over |
| `BlockIo.ArmsAreAccountedFor` | kernel/core/block_io.cc:132-169 | in every consistent state the arms are the outcomes published plus the requests pending |
| `BlockIo.TokensRepeat` | kernel/core/block_io.cc:351-355 | two arms carry the same token exactly when the slot was used a multiple of 2^32 - 1 times between them |
| `BlockIo.TokensAreUnique` | kernel/core/block_io.cc:351-355 | below 2^32 - 1 uses of a slot no two arms share a token |
| `BlockQueues.TokenIsSpent` | kernel/core/block_io.cc:550-604 | the token of a settled arm is never accepted again |
| `BlockQueues.BlockQueues.QueueFor` | kernel/core/block_io.cc:237-263 | finds or makes the device's queue, eight at most |
| `BlockQueues.BlockQueues.Enqueue` | kernel/core/block_io.cc:330-369 | takes the first free slot under a new generation, full exactly at eight |
| `BlockQueues.BlockQueues.BeginArm` | kernel/core/block_io.cc:461-485 | up to the unlock: succeeds exactly for a valid request of a caller that can wait, with room in the queue of its device, and then arms exactly that request under a token that will complete it; refusal says why and arms nothing |
| `BlockQueues.BlockQueues.StoreStatus` | kernel/core/block_io.cc:486-487 | the store after the unlock: a request already finished is then written over, and no other |
| `BlockQueues.BlockQueues.ArmPending` | kernel/core/block_io.cc:461-488 | both without interruption, under the same condition: the request is pending and not written over |
| `BlockQueues.BlockQueues.Judge` | kernel/core/block_io.cc:565-588 | the reason for a rejection; device and request-generation mismatches cannot occur |
| `BlockQueues.BlockQueues.Complete` | kernel/core/block_io.cc:550-609 | accepted exactly when the token is that of the arm pending in the slot; a rejection changes nothing but a diagnostic |
| `BlockQueues.BlockQueues.Cancel` | kernel/core/block_io.cc:527-548 | settles exactly a pending request and frees its slot; uses a missing queue exactly when the table is full without the device |
| `BlockQueues.BlockQueues.TimeOut` | kernel/core/block_io.cc:510-519 | settles a pending request; the slot is freed exactly if it was still pending |
| `BlockQueues.BlockQueues.IssueFailed` | kernel/core/block_io.cc:446-456 | settles a pending request with the driver's error |
| `BlockQueues.BlockQueues.Collect` | kernel/core/block_io.cc:490-497 | gives the slot back and returns the outcome of the arm, unless that was written over |
| `BlockQueues.BlockQueues.SubmitSync` | kernel/core/block_io.cc:419-459 | arms exactly when arming can succeed; then, whatever the driver does, exactly one outcome is published and returned, and the queue is as full as before |
| `BlockRuns.Run` | kernel/core/block_io.cc:419-609 | over any interleaving every event has exactly its effect and its mark, or is skipped exactly when its caller may not make it; a published outcome never changes, each publishing event settles an arm of its own, arms are outcomes plus pending requests, and a waiter is told the outcome of the latest arm exactly when that did not come between the two steps of arming |
| `BlockRuns.HasArmIff` | kernel/core/block_io.cc:461-488 | a request has a latest arm exactly when it had one at the start or was armed in the run |
| `BlockRuns.CancelledBeforeStored` | kernel/core/block_io.cc:484-548 | whenever arming can succeed, a cancellation between its two steps: cancelled, but told to block |
| `BlockRuns.OneRequestMisled` | kernel/core/block_io.cc:484-548 | one device and one one-sector read are enough for it |
| `BlockRuns.NinthDeviceFaults` | kernel/core/block_io.cc:237-263 | with eight queues made, cancelling for a ninth device uses a missing queue |
| `BuddyZone.Zone.Merge` | kernel/mm/buddy.cc:204-260 | coalesces upwards until no two blocks below the largest order touch, with the same pages free; terminates on the orders left |
| `BuddyZone.Zone.BaseFree` | kernel/mm/buddy.cc:262-282 | frees exactly the block's pages and keeps every list sorted, disjoint and coalesced |
| `BuddyZone.Zone.NewFree` | kernel/mm/buddy.cc:284-298 | adds new pages to the zone, its total and its free count |
| `BuddyZone.Zone.Free` | kernel/mm/buddy.cc:300-312 | returns pages, the free count staying the sum of the lists |
| `BuddyZone.Split` | kernel/mm/buddy.cc:341-371 | tiles the remainder with blocks of falling orders, so that each order is used at most once and eleven slots suffice |
| `BuddyZone.Zone.Alloc` | kernel/mm/buddy.cc:314-411 | takes the front of the lowest block of the smallest sufficient order and frees exactly the rest; a failure restores the zone exactly |
| `PageAllocator.BlocksStayInZone` | kernel/mm/buddy.cc:314-411 | every free or allocated block is 2^order pages of its own zone |
| `PageAllocator.BlocksAreDisjoint` | kernel/mm/buddy.cc:204-411 | no page is in two blocks, free or allocated, of any zones |
| `PageAllocator.BasesAreUnique` | kernel/mm/buddy.cc:725-750 | an address names at most one allocated block |
| `PageAllocator.GiveUndoesTake` | kernel/mm/buddy.cc:684-750 | giving back what was just taken restores the allocated list, the counters and the free pages of every zone |
| `PageAllocator.Allocator.AllocThenFree` | kernel/mm/buddy.cc:684-750 | so does allocating and freeing by the address |
| `PageAllocator.Allocator.AllocOrder` | kernel/mm/buddy.cc:684-723 | serves from the highest zone, from the requested one down, that has a fitting block; only a metadata shortage can differ |
| `PageAllocator.Allocator.FreeOrder` | kernel/mm/buddy.cc:725-750 | frees exactly the allocated block at the address and ignores every other address |
| `PageAllocator.Allocator.Run` | kernel/mm/buddy.cc:684-750 | over any run of calls every request is answered as its state demands, free and allocated blocks partition the same pages and the counters are their sums |
| `MemoryRegions.SpanIsWholePages` | kernel/mm/buddy.cc:483-501 | a region below the top of memory contributes exactly the pages wholly inside it |
| `MemoryRegions.WrappedSpan` | kernel/mm/buddy.cc:483-501 | what a region that reaches the top contributes: nothing, or from page 0 on if it starts in the last page |
| `MemoryRegions.SpanIsWholePagesIff` | kernel/mm/buddy.cc:483-501 | for every base and length: exactly the whole pages if and only if the region ends below the top, or starts in the last page and ends within a page of the top |
| `MemoryRegions.LastByteHandsOutLowPages` | kernel/mm/buddy.cc:485-501 | a region from the last byte on hands out the first pages of memory |
| `MemoryRegions.LastPageIsDropped` | kernel/mm/buddy.cc:499-501 | the last page of the address space is never handed out |
| `MemoryRegions.ImageIsSparedUnlessAlone` | kernel/mm/buddy.cc:510-521 | handling a range newly hands out a kernel image page if and only if the range lies wholly inside the image |
| `MemoryRegions.FirstImagePageGoes` | kernel/mm/buddy.cc:510-521 | one page at the start of the image is such a range |
| `MemoryRegions.AddRange` | kernel/mm/buddy.cc:541-556 | frees every page of a range once, in the largest blocks that fit |
| `MemoryRegions.HandlePages` | kernel/mm/buddy.cc:503-556 | the recursion ends and adds exactly the usable pages, each to the zone of its address |
| `MemoryRegions.HandleRegion` | kernel/mm/buddy.cc:483-557 | the same from bytes, in 64-bit arithmetic |
| `BootMemory.PartsAreTheRest` | kernel/mm/buddy.cc:594-619 | a usable region is cut into exactly its bytes outside the framebuffer |
| `BootMemory.ConsumeMap` | kernel/mm/buddy.cc:621-637 | of a map whose usable regions do not overlap, regions up to the top included, the allocator gets exactly the usable pages outside the framebuffer, each once and in its zone |
| `RangeLists.CanonicalIsUnique` | kernel/mm/vmem.cc:1772-1840 | a set of free pages has one ascending list of maximal runs |
| `RangeLists.WindowInOneRange` | kernel/mm/vmem.cc:1884-1890 | a window of free pages lies inside one range of that list |
| `KernelRanges.FirstFitIsLowest` | kernel/mm/vmem.cc:1884-1890 | first fit finds the lowest window of free pages that is long enough |
| `KernelRanges.FirstFitIsExact` | kernel/mm/vmem.cc:1884-1890 | and fails exactly when there is no such window |
| `KernelRanges.FreeUndoesAlloc` | kernel/mm/vmem.cc:1842-1932 | giving back the pages just taken restores the canonical free list exactly |
| `KernelRanges.RangeTable.AllocThenFree` | kernel/mm/vmem.cc:1842-1932 | so does allocating and freeing by the address |
| `KernelRanges.AppendKeepsOrderIffLast` | kernel/mm/vmem.cc:1899-1918 | a range moved to the end leaves the list canonical if and only if it was last |
| `KernelRanges.RangeTable.MergeAt` | kernel/mm/vmem.cc:1772-1840 | joins touching ranges without changing the pages; a list canonical but for one range becomes canonical |
| `KernelRanges.RangeTable.Free` | kernel/mm/vmem.cc:1842-1877 | gives back exactly the used range at the address and keeps the list canonical |
| `KernelRanges.RangeTable.Alloc` | kernel/mm/vmem.cc:1879-1932 | takes the front of the first fit, the lowest free window of the length, or nothing exactly when none fits; free and used ranges always partition the arena |
| `KernelRanges.RangeTable.Run` | kernel/mm/vmem.cc:1842-1932 | over any run the used ranges are those given out and not taken back; until metadata runs out each request gets the lowest vacant window, is refused exactly when there is none, and the free list is the ascending list of maximal runs |
| `Bitset.Bits.constructor` | cpp/ktl/bitset.cc:6-23 | all bits clear and counted, none without storage |
| `Bitset.Bits.Set` | cpp/ktl/bitset.cc:35-54 | sets exactly the range, cut off at the end, and returns how many bits changed |
| `Bitset.Bits.Reset` | cpp/ktl/bitset.cc:65-84 | clears exactly the range and returns how many bits changed |
| `Bitset.Bits.Scan` | cpp/ktl/bitset.cc:94-113 | the lowest run of clear bits of the length, or none exactly when there is none |
| `Bitset.Bits.Test` | cpp/ktl/bitset.cc:129-133 | the bit in the packed byte, and false outside |
| `Bitset.ShiftedBit` | cpp/ktl/bitset.cc:129-133 | reading a bit by shifting agrees with reading it by mask |
| `SlabImages.ObjectAtPayload` | kernel/mm/slab.cc:152-167 | the release path finds an object exactly from its own payload address |
| `SlabImages.PayloadsAreDisjoint` | kernel/mm/slab.cc:138-150 | payloads of different objects are disjoint and end inside their slab |
| `SlabImages.LiveAreDisjoint` | kernel/mm/slab.cc:138-150 | any two live objects of a cache have disjoint payloads |
| `SlabImages.TakenKeeps` | kernel/mm/slab.cc:333-351 | allocation keeps the lists, counters and slab layout |
| `SlabImages.TakenLive` | kernel/mm/slab.cc:333-351 | allocation makes exactly one address live, which was not |
| `SlabImages.ReleasedLive` | kernel/mm/slab.cc:152-183 | release ends exactly one live address |
| `SlabImages.ReclaimedLive` | kernel/mm/slab.cc:239-264 | giving an empty slab back ends no live object |
| `SlabCache.Slab.AllocObj` | kernel/mm/slab.cc:138-150 | marks the lowest free object, or none exactly when all are live |
| `SlabCache.Slab.ClearObj` | kernel/mm/slab.cc:152-178 | acts exactly on the live object addresses of the slab |
| `SlabCache.Cache.Alloc` | kernel/mm/slab.cc:296-351 | gives out the lowest free object of the first available slab, one new live address, growing the cache only when no slab is available; failure changes nothing |
| `SlabCache.Cache.Release` | kernel/mm/slab.cc:266-290 | ends the object's life and refiles a slab that was full |
| `SlabCache.Cache.ReclaimIfEmpty` | kernel/mm/slab.cc:231-264 | gives a slab back exactly if it is empty, not permanent and not the last available |
| `SlabCache.Cache.Free` | kernel/mm/slab.cc:152-183 | ends exactly the named object's life, if it is live, always leaves an available slab, and leaves no spare one behind |
| `SlabCache.Cache.AddStatic` | kernel/mm/slab.cc:205-229 | takes a permanent slab in without touching a live object |
| `SlabRuns.Run` | kernel/mm/slab.cc:138-351 | over any run every address given out is new, a request is served exactly when an object is free or pages are had, a release succeeds exactly on a live address, the live addresses are those given out and not taken back, and their objects never overlap |
| `UserCopy.UserRangeWritable` | kernel/mm/vmem.cc:1178-1198 | true exactly for non-empty ranges below the user limit all of whose pages are present, user and writable |
| `UserCopy.Memory.CopyTo` | kernel/mm/vmem.cc:1226-1251 | page-by-page copying is byte-by-byte copying, up to the first page that cannot be reached |
| `UserCopy.Memory.CopyFrom` | kernel/mm/vmem.cc:1200-1224 | returns the bytes of the range, one by one, exactly if every page can be reached |
| `UserCopy.OthersKept` | kernel/mm/vmem.cc:1226-1251 | no physical byte outside the translated range changes |
| `UserCopy.CopyRoundTrip` | kernel/mm/vmem.cc:1200-1251 | what is copied in comes back out if no two bytes share a place |
| `UserCopy.FramesApartIff` | kernel/mm/vmem.cc:1200-1251 | no two bytes of a range share a place if and only if two of its pages on one frame lie apart by at least the range |
| `UserCopy.RoundTripIffFramesApart` | kernel/mm/vmem.cc:1200-1251 | all data come back if and only if they do; over whole pages, if and only if all frames are distinct |
| `UserCopy.CheckCopyAndReadBack` | kernel/mm/vmem.cc:1178-1251 | a range that the check accepts, with reachable frames lying apart, takes the data and gives them back |
| `UserViews.LeafOf` | kernel/mm/vmem.cc:594-613 | walking the tables finds exactly the entries that the copies are stated over |
| `UserViews.ViewIsPlainMap` | kernel/mm/vmem.cc:594-613 | those entries are the root's part of the plain map of pages |
| `UserViews.IsolatedRangesAreApart` | kernel/mm/vmem.cc:1178-1198 | under copy-on-write isolation the pages of a writable range have distinct frames |
| `UnbufferedStream.OverwriteTwice` | user/libc/stdio.c:138-150 | writing in two pieces is writing at once |
| `UnbufferedStream.GetTwice` | user/libc/stdio.c:398-459 | reading in two pieces is reading at once |
| `Stdio.WriteAll` | user/libc/stdio.c:138-150 | writes all bytes in accepted chunks despite short writes |
| `Stdio.Stream.FlushWrite` | user/libc/stdio.c:153-169 | hands pending writes over without changing the file the stream stands for |
| `Stdio.Stream.Realign` | user/libc/stdio.c:173-185 | moves the kernel offset back by what is buffered and pushed back, failing exactly before the start |
| `Stdio.Stream.ToWrite` | user/libc/stdio.c:187-197 | turning to writing keeps the file, giving up the pushed-back byte |
| `Stdio.Stream.ToRead` | user/libc/stdio.c:199-209 | turning to reading keeps the file |
| `Stdio.Stream.FillRead` | user/libc/stdio.c:212-230 | refills without moving the logical offset; end of file exactly at the end |
| `Stdio.Stream.Read` | user/libc/stdio.c:398-459 | delivers exactly what the unbuffered file delivers and counts whole objects |
| `Stdio.Stream.GetC` | user/libc/stdio.c:528-565 | delivers the unbuffered file's next byte |
| `Stdio.Stream.Write` | user/libc/stdio.c:461-526 | changes the file as one unbuffered write does; never leaves a full buffer pending nor, line by line, a newline |
| `Stdio.Stream.PutC` | user/libc/stdio.c:612-643 | writes one byte as the unbuffered file does, with its own flush conditions |
| `Stdio.Stream.Unget` | user/libc/stdio.c:596-610 | pushes back one byte, refusing a second |
| `Stdio.Stream.Flush` | user/libc/stdio.c:677-690 | afterwards the kernel file has the stream's contents |
| `Stdio.Stream.Tell` | user/libc/stdio.c:723-741 | always the logical position, whatever is buffered or pushed back |
| `Stdio.Stream.Seek` | user/libc/stdio.c:743-778 | succeeds exactly for reachable targets and then stands there; on failure leaves the stream as it was exactly when there was nothing to lose |
| `StreamRuns.Run` | user/libc/stdio.c:138-230 | over any sequence of reads, writes, pushback, possible seeks, tells and flushes all answers and the file are those of the unbuffered stream, and after a flush the kernel file is that file |
| `StreamRuns.FailedSeekLosesByte` | user/libc/stdio.c:770-774 | a pushed-back byte does not survive a seek that fails |
| `DnsNames.WireReads` | user/libc/dns.c:42-89 | the wire form of labels reads back as those labels, wherever it stands |
| `DnsNames.WireIsInjective` | user/libc/dns.c:42-89 | different label lists have different wire forms |
| `DnsNames.HostnameRoundTrip` | user/libc/dns.c:42-89 | a hostname encodes to its length plus two bytes and decodes to its lower-case form |
| `DnsEncode.EncodeQname` | user/libc/dns.c:42-89 | accepts exactly the valid hostnames that fit and produces their wire form |
| `DnsMessages.BuildQuery` | user/libc/dns.c:91-116 | the query bytes, or the error for an invalid name or a short buffer |
| `DnsWalk.MatchName` | user/libc/dns.c:118-174 | on arbitrary bytes terminates, reads in bounds, and matches exactly the names whose lower-case wire form is the query name |
| `DnsWalk.SkipName` | user/libc/dns.c:176-214 | on arbitrary bytes skips exactly the names that decode within the jump bound, to the same end as a match |
| `DnsMessages.CollectIsAddresses` | user/libc/dns.c:264-292 | one pass over the records yields the four-byte A records in order |
| `DnsMessages.AddressesAreOwnIff` | user/libc/dns.c:264-292 | the addresses are those of the name asked for if and only if no address record has another owner |
| `DnsMessages.ParseResponse` | user/libc/dns.c:216-299 | succeeds exactly on responses whose header, question and records are acceptable, with their addresses in order; every other message gets the one error stated for it |
| `DnsRoundTrip.TrueWithin` | user/libc/dns.c:176-214 | a written name is read exactly when it chains no more pointers than allowed |
| `DnsRoundTrip.ResponseIsAcceptedIff` | user/libc/dns.c:216-299 | a response whose names end in the root or in a pointer to any earlier name or tail of one is accepted if and only if no name chains more than sixteen pointers and its address records are four bytes, and then says exactly its records |
| `DnsRoundTrip.ChainIsShallowIff` | user/libc/dns.c:176-214 | of a chain of pointers, sixteen are followed and seventeen are not |
| `DnsRoundTrip.StrangerIsAccepted` | user/libc/dns.c:264-292 | an address of any other name is accepted |
| `DnsRoundTrip.AnswersTheQuery` | user/libc/dns.c:91-299 | the same for a response that echoes the question of a built query |
| `Numerals.NumeralValue` | user/libc/stdio.c:894-905 | the digits of a number denote it, without a leading zero |
| `Numerals.DivisionTest` | user/libc/malloc.c:168-172 | the overflow test by division is exact |
| `NumberText.ReverseBuffer` | user/libc/stdio.c:886-892 | reverses the first characters in place and leaves the rest |
| `NumberText.StoreDigits` | user/libc/stdio.c:894-904 | the digits, backwards, within 32 characters |
| `NumberText.WordsFitIff` | user/libc/stdio.c:894-904 | the buffer holds the digits of every word if and only if the base is at least 4 |
| `NumberText.FormatUnsigned` | user/libc/stdio.c:894-912 | blanks, prefix and the numeral, whenever the digits fit |
| `NumberText.FormatSigned` | user/libc/stdio.c:914-924 | the signed numeral, the least value included |
| `NumberParse.Accumulate` | user/libc/malloc.c:158-176 | consumes the whole run of digits; overflow exactly when their value passes the limit |
| `NumberParse.Strtol` | user/libc/malloc.c:129-192 | the mathematical value clamped to a long, flagged exactly when clamped, and how much was consumed |
| `NumberParse.Strtoul` | user/libc/malloc.c:194-253 | the same for unsigned values, a minus sign negating modulo the word |
| `NumberParse.UnsignedRoundTrip` | user/libc/malloc.c:194-253 | what is printed in bases 4 to 16, in any width, reads back whole as the same value |
| `NumberParse.PrefixedRoundTrip` | user/libc/malloc.c:194-253 | the same with the 0x prefix, in base 16 or an open base |
| `NumberParse.SignedRoundTrip` | user/libc/malloc.c:129-192 | the same for signed values |
| `NumberParse.AgreesWithIsoIff` | user/libc/malloc.c:150-155 | agrees with the standard if and only if no hex prefix stands without digits |
| `NumberParse.BareHexStops` | user/libc/malloc.c:150-155 | on "0x" the code stops before the zero and the standard after it |

## Left out

- AddressSpaces.PageTables.MapRootPage: only low-half page-aligned addresses of user roots and present attributes; kernel-half mappings and their inexact counts are not modelled.
- AddressSpaces.PageTables.RootPte: large-page entries are met only as a reason to stop.
- TlbShootdown.ReturnsAreTruthful: assumes one handler run per interrupt sent, and says nothing about whether a requester ever returns.
- MmContext.CountsAndResidence: 32-bit wrap of the reference count is not modelled.
- BlockRuns.Run: a request is armed only when it is in no queue and an earlier arming of it has returned; calls outside their callers' contract are skipped.
- BuddyZone.Zone.Alloc: metadata allocation does not re-enter the page allocator, and the 32-bit page counters do not wrap.
- MemoryRegions.HandleRegion: requires that the region's usable pages are not yet owned, which `BootMemory.ConsumeMap` shows of a map without overlaps, and leaves out the bootstrap metadata arena, whose exhaustion halts the machine.
- BootMemory.ConsumeMap: leaves out a region that starts past the start of the last page and reaches a page or more beyond the top, which hands out low pages (`MemoryRegions.LastByteHandsOutLowPages`); reading the map from the boot header is not modelled.
- KernelRanges.RangeTable.Alloc: the mapping of the range and its physical pages are not modelled.
- SlabCache.Cache.Alloc: the pages for a new slab come as an address apart from the other slabs; debug poisoning and large allocations are not modelled.
- SlabRuns.Run: the slab of an address is searched for where the code reads it from the object's header.
- UserCopy.Memory.CopyTo: the page table is a map from page to entry, which `UserViews.LeafOf` and `UserViews.ViewIsPlainMap` read off the tables; addresses do not wrap, and the kernel half, whose pages are not user pages, is left out.
- UserMemoryRuns.Run: file-backed pages, the checks against a process's list of regions, TLB invalidation and the copied bytes are not modelled; an event for a root that does not exist is ignored.
- Stdio.Stream.Write: kernel calls succeed, though possibly short; append mode, stream closing and null arguments are not modelled.
- StreamRuns.Run: seeks that cannot be made are left out of the run; `Stdio.Stream.Seek` says what they do.
- DnsWalk.MatchName: requires that no label of the query name runs past its end; on one cut off inside a label the code reads past its length.
- NumberText.FormatUnsigned: requires that the digits fit the 32-character buffer, past which the code would write.
- NumberParse.Strtol: `strtoll` and `strtoull` have the same bodies at the same width and are not repeated.
- The kernel's own mappings, the direct map, device memory, CR3 and `invlpg` are hardware effects or inexact counts.
- `malloc`, `free` and `realloc` of the library, and the choice of a cache by size, would add easier members.
- Sockets, polling and retransmission around the DNS codec are I/O.
- The scheduler, processes, file systems and the network stack are not part of this model.
