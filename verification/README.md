# SumiOS memory management in Dafny

A model of the memory management of SumiOS, with proofs. The layers stand on
each other as they do in the kernel: the boot-time allocators hand over to the
buddy system, the page tables and the slab allocator take their pages from it,
and spin locks let many CPUs do all of this at once. Two small neighbours are
included, the text screen and the number printer.

Most layers come in two parts. A module of functions on values says what the
code computes, and lemmas about these functions carry the properties. A module
of classes holds the code as it runs, on arrays, list nodes and fields updated
in place, and every method there is proved against the function for it.

| files | what they model |
|---|---|
| `IntrusiveList.dfy` | circular doubly linked lists, as links between nodes |
| `Buddy.dfy`, `PageAlloc.dfy`, `PageSizes.dfy` | the buddy system: on values, as it runs, and the sizes it rounds to |
| `BuddyFree.dfy` | when a free is right |
| `BuddyRuns.dfy`, `BuddyFlags.dfy` | allocation, and runs of allocations and frees; the is_free flags over them |
| `BuddyBoot.dfy`, `BuddyMerges.dfy`, `BuddyHome.dfy` | the build-up at boot, which is a binary counter; its work; and the allocations after it |
| `BuddyHeads.dfy`, `BuddyReached.dfy` | which blocks the coalescing loop can find, and wrong states that kernel code can reach from boot |
| `LinearAlloc.dfy`, `MmInit.dfy`, `MmStart.dfy` | the boot-time allocators, the hand-over to the buddy system, and where it leaves the kernel |
| `PageTable.dfy`, `PageMap.dfy`, `BootMap.dfy`, `BootRefused.dfy` | four-level page tables as a flat map; mapping and lookup; the first kernel table, and what refused tables do to it |
| `Slub.dfy`, `SlubHeap.dfy`, `SlubRuns.dfy`, `SlubAlloc.dfy`, `SlubFrames.dfy` | the slab allocator: memory chains, state, runs, and as it runs; in which frames its objects lie |
| `BuddyWork.dfy`, `Smp.dfy`, `SmpAlone.dfy`, `SmpOrder.dfy`, `SmpSafe.dfy`, `SmpFrees.dfy` | spin locks, and many CPUs in small interleaved steps |
| `Tty.dfy`, `Print.dfy` | the text screen and number printing |
| `Powers.dfy`, `BinaryDigits.dfy` | arithmetic |

How memory is represented: a `struct page` is its frame number, with one entry
in each of the arrays for its list node and its two flags. Freelist `k` is list
node `n + k`, the lists of the caches come after that. NULL as a page is -1.
Slab memory is a map from address to 64-bit word; a table is a sequence of 512
words, by frame.

## Where the code is not what it seems

* **Freeing.** The code records no order for a free block, so `__free_pages`
  merges with any neighbour that is free and head
  (`code/mm/page_alloc.c:128-146`). `BuddyFree.FreeClaimsPageInUse` is a state
  in which this takes a page that is in use. `BuddyFree.FreeExactIff` gives the
  exact condition for every state, page and order, by the freelists that the
  neighbours are on. The boot build-up meets the condition by itself
  (`BuddyBoot.BootRunSound`); frees in a run of the allocator are stated under
  it (`BuddyRuns.RunSafe`), and with many CPUs safety is equivalent to it
  (`SmpFrees.SafeIffProper`, `SmpFrees.FreesSafe`). The wrong state can be reached: in
  `BuddyReached.HeldPageTaken` four frames released at boot are taken, two are
  given back without harm, and giving back the third frees a page that another
  caller holds. Even giving back the block just received can go wrong, exactly
  if the condition fails (`BuddyRuns.AllocThenFree`); after a boot run of three
  frames it gains a page that the allocator never had
  (`BuddyReached.RoundTripGains`).
* **Splitting.** Halves given back by a split are linked but not marked head
  (`code/mm/page_alloc.c:70-73`). Free and head therefore implies linked, and
  not the other way round; this is the clause `SeenLinked` of `Buddy.Inv`. The
  converse holds after the build-up (`BuddyHeads.LinkedSeenAfterBoot`), and an
  allocation keeps it exactly if the freelist of its order is not empty
  (`BuddyHeads.LinkedSeenAfterAlloc`). `BuddyReached.SplitHides` is the first
  allocation after a boot run of two frames, which loses it.
* **Flags of free pages.** Giving back a block flags its first page only
  (`code/mm/page_alloc.c:154`). After the build-up and any allocations a page is
  flagged free exactly if it is (`BuddyFlags.BootThenAllocateFlags`); a free keeps
  this exactly if it gives back a single page (`BuddyFlags.FlagsTrueIff`). What
  stays over all guarded runs is that no page of a block held is flagged
  (`BuddyFlags.RunFlags`).
* **Partial lists.** Nothing in the repository puts a slab on a partial list.
  The results about the slab allocator hold for whatever partial lists there
  are, exhausted slabs included.
* **The least number.** `kprintnum` negates its argument, which leaves the least
  64-bit number as it is. It is printed as text that is no number
  (`Print.LeastNumber`); signed overflow is taken to wrap.
* **Refused though it fits.** `mm_init_phys_alloc_linear` returns NULL for a
  request that fits its segment, exactly if it takes the last byte of the last
  area, and the bytes are lost (`code/mm/mm_init.c:69-72`,
  `LinearAlloc.FittingRefusedIff`, with a state in `LinearAlloc.FittingRefused`).
* **Sums that wrap.** Neither that function nor `boot_mm_alloc` checks its 64-bit
  sums. `LinearAlloc.ChunkFitsIffNoWrap` and `LinearAlloc.BootChunkFitsIffNoWrap`
  say when a chunk lies where it should; `LinearAlloc.WrappedChunk` and
  `LinearAlloc.BootWrappedChunk` are requests for almost all of memory that are
  granted.
* **Entries that do not cover whole pages.** The release loop steps by whole pages
  from the start of an entry, wherever that is (`code/mm/mm_init.c:275-285`). The
  frames it releases are above the memory handed out before, and inside the entry,
  exactly as `MmInit.ReleasedAboveIff` and `MmInit.ReleasedInsideIff` say.
  `MmInit.ReleasedBeyond` is an entry whose last frame released reaches beyond it,
  and in `MmInit.HandOverFails` a frame of a chunk in use is released.
* **Attributes of a page.** The map functions or the attributes into the entries
  of upper tables as well (`code/mm/pgtable.c:58-62`). A new table is entered right
  wherever it is allocated if and only if the attributes are bits of the low twelve
  (`PageTable.EnterAlwaysIff`); `PageTable.EnterTreeIff` says it for one address,
  and `PageTable.StrayTable` is a case.
* **Tables that are refused.** `mm_pgtable_map` does not check for failure, and
  clears memory at the address that stands for it; `PageMap.AddressSpace.Map`
  says exactly when it comes to that. `boot_pgtable_map` takes frame 0 instead,
  for every table that is refused. One call from a tree of tables is right whatever
  page it maps if and only if at most one table is refused
  (`BootRefused.MappedIff`); then frame 0 is a table, and
  `BootRefused.RefusedTablesShared` is a page that the next refusal unmaps.
* **Sizes above 2^63.** The order loop of `mm_phys_alloc` does not end for them
  (`PageSizes.SizeLoopEnds`).

## Model

| member | source | states |
|---|---|---|
| IntrusiveList.Links.HeadInit | code/include/sumios/list.h:59-63 | an unlinked node becomes the head of an empty list; all other lists stay |
| IntrusiveList.Links.AddNext | code/include/sumios/list.h:30-44 | over a family of disjoint lists, the node goes right after the given one in that node's list, links stay mutual inverses, no other list changes |
| IntrusiveList.Links.AddPrev | code/include/sumios/list.h:14-28 | the same, right before the given node |
| IntrusiveList.Links.Del | code/include/sumios/list.h:46-56 | exactly this node leaves its list, which stays a ring; its own links are left as they were |
| IntrusiveList.Links.Empty | code/include/sumios/list.h:65-68 | the links of the head alone tell whether the list has no node |
| PageSizes.OrderForSize | code/mm/page_alloc.c:183-185 | the loop finds the least order that holds the size, with the shift in 64 bits |
| PageSizes.SizeLoopEnds | code/mm/page_alloc.c:183-185 | the loop ends if and only if the size is at most 2^63 |
| PageAlloc.PageAllocator.FreelistInit | code/mm/page_alloc.c:15-20 | all eleven freelists become empty; other lists stay |
| PageAlloc.PageAllocator.AllocPageDirect | code/mm/page_alloc.c:46-78 | links and flags end up as the first fitting block taken and its upper halves given back |
| PageAlloc.PageAllocator.AllocPages | code/mm/page_alloc.c:86-110 | the code on links and flags computes Buddy.Alloc, for every order, and leaves all other lists alone |
| BuddyFlags.AllocExact | code/mm/page_alloc.c:46-78 | for every state: the first block of the first freelist from the order on that has one; list by list what is left; nothing changes if none has one |
| BuddyFlags.AllocClears | code/mm/page_alloc.c:95-102 | an allocation clears the flags of exactly the pages of its block |
| PageAlloc.PageAllocator.FreePages | code/mm/page_alloc.c:113-155 | the code on links and flags computes Buddy.Free, whatever the neighbours' orders; every list_del is on a linked node |
| PageAlloc.PageAllocator.PhysAlloc | code/mm/page_alloc.c:177-194 | a block of the least order that holds the size, as a physical address, or -1 |
| BuddyFree.FreeSound | code/mm/page_alloc.c:124-154 | if every neighbour absorbed is a block of the order reached, exactly the freed pages become free and every invariant stays |
| BuddyFree.FreeExactIff | code/mm/page_alloc.c:124-154 | a free adds exactly its pages and keeps blocks disjoint if and only if that condition holds |
| BuddyFree.FreeClaimsPageInUse | code/mm/page_alloc.c:128-146 | a state in order in which a free, its condition not met, makes a page in use free |
| BuddyFree.ExtentIsFree | code/mm/page_alloc.c:124-154 | the whole extent that the loop has in hand ends up free, whatever it absorbed |
| BuddyFree.SmallerNeighbour | code/mm/page_alloc.c:128-146 | a free that absorbs a smaller block is never exact: it claims the page behind it |
| BuddyFree.LargerNeighbour | code/mm/page_alloc.c:128-146 | a free that absorbs a larger block is never exact: it loses the block's tail |
| BuddyFree.BetweenTwo | code/mm/page_alloc.c:128-146 | between two free blocks of its order, the block is joined with the one behind it, and the one before it stays |
| BuddyFree.UnmappedStay | code/mm/page_alloc.c:128-154 | between two descriptors that are not mapped, the block is linked as it is |
| BuddyRuns.SplitSound | code/mm/page_alloc.c:66-74 | splitting loses no page, and gives back exactly one block of each order passed |
| BuddyRuns.AllocSound | code/mm/page_alloc.c:46-110 | an allocation fails exactly if no block is large enough, and then changes nothing; otherwise it takes 2^order free pages at the start of one block, and no other page changes hands |
| BuddyRuns.RunSafe | code/mm/page_alloc.c:86-155 | over every run of allocations and guarded frees, issued blocks are disjoint from each other and from free ones, and issued plus free pages are always the pages there were |
| BuddyRuns.AllocThenFree | code/mm/page_alloc.c:86-155 | giving back the block just received restores the free pages if and only if every neighbour absorbed is of the order reached |
| BuddyFlags.RunFlags | code/mm/page_alloc.c:86-155 | over every run of allocations and guarded frees, no page of a block held is flagged free, if only free pages were at first |
| BuddyFlags.FlagsTrueIff | code/mm/page_alloc.c:124-154 | where the flags say exactly which pages are free, a guarded free keeps that if and only if it gives back one page |
| BuddyHeads.LinkedSeenAfterAlloc | code/mm/page_alloc.c:66-74 | where every linked block can be found by the coalescing loop, this survives an allocation if and only if the freelist of its order is not empty |
| BuddyHeads.LinkedSeenAfterBoot | code/mm/mm_init.c:271-286 | it holds after the build-up of any number of runs |
| BuddyReached.RoundTripGains | code/mm/page_alloc.c:86-155 | after a boot run of three frames, taking and giving back two makes a frame free that was never released |
| BuddyReached.SplitHides | code/mm/page_alloc.c:66-74 | after a boot run of two frames, the first allocation leaves a linked block that the loop cannot find |
| BuddyReached.HeldPageTaken | code/mm/page_alloc.c:86-155 | a run of harmless calls from boot, after which a holder's free makes a page free that another caller holds |
| BuddyRuns.FitsPages | code/mm/page_alloc.c:46-110 | a block is apart from all freelist entries exactly if none of its pages is free |
| BuddyBoot.BootRun | code/mm/mm_init.c:271-286 | n ascending order-0 frees leave n / 1024 blocks of order 10, then the binary digits of n % 1024 in descending sizes; flags are set exactly at block starts |
| BuddyBoot.BootRunSound | code/mm/page_alloc.c:113-155 | every free of the run meets the condition of FreeExactIff, so exactly the run's pages become free |
| BuddyMerges.BootWork | code/mm/page_alloc.c:125-150 | the merge iterations of a run of n pages are n less the blocks it leaves, hence fewer than n |
| BuddyBoot.BootStep | code/mm/page_alloc.c:125-154 | one free of the run is one increment of the counter, carries included |
| BuddyHome.BootRuns | code/mm/mm_init.c:271-286 | the same for any number of runs, in any order, with 512 frames between them |
| BuddyHome.BootThenAllocate | code/mm/page_alloc.c:46-110 | build-up and then any allocations: everything RunSafe says, and every block sits in one run at a multiple of its size |
| BuddyFlags.BootThenAllocateFlags | code/mm/page_alloc.c:46-110 | from cleared flags, after the build-up and any allocations, a page is flagged free if and only if it is |
| LinearAlloc.ChunkFitsIffNoWrap | code/mm/mm_init.c:43-54 | a chunk lies in its segment if and only if no 64-bit sum wrapped |
| LinearAlloc.WrappedChunk | code/mm/mm_init.c:43-54 | a state and size for which a sum wraps and a chunk is granted that does not fit |
| LinearAlloc.NullIff | code/mm/mm_init.c:38-76 | for every state and size, when the call returns NULL |
| LinearAlloc.FittingRefusedIff | code/mm/mm_init.c:56-73 | a request that fits is refused if and only if it takes the last byte of the last memory; then every later request is refused too |
| LinearAlloc.FittingRefused | code/mm/mm_init.c:56-73 | a state in which a request for one free page is refused |
| LinearAlloc.AllocLinearStep | code/mm/mm_init.c:34-76 | one call, if no sum wraps: NULL exactly in four cases; otherwise the chunk is in one area and behind all later ones; the segment end never goes down, across segment switches too |
| LinearAlloc.AllocLinearNext | code/mm/mm_init.c:34-76 | where one call leaves the allocator: behind the chunk, or with the whole of the first area at or behind a segment that is used up, or where it was |
| LinearAlloc.ChunksJoin | code/mm/mm_init.c:34-76 | over every run no byte is left out between chunks: each starts where the one before ends, or, at the end of a segment, at the start of the first area from the index on at or behind it |
| LinearAlloc.LinearRun | code/mm/mm_init.c:34-76 | over every run in which no sum wraps, chunks ascend, are disjoint, and each lies in one available area, sorted or not |
| LinearAlloc.BootChunkFitsIffNoWrap | code/arch/x86/boot/mm_boot.c:98-110 | a chunk of the boot allocator ends below the end of memory if and only if no 64-bit sum wrapped |
| LinearAlloc.BootWrappedChunk | code/arch/x86/boot/mm_boot.c:98-110 | a request for which a sum wraps, and that is granted |
| LinearAlloc.BootRunBelow | code/arch/x86/boot/mm_boot.c:90-111 | over every run, if no sum wraps, the boot allocator's chunks ascend, without a gap between them, up to its bump pointer |
| LinearAlloc.LinearAllocator.CollectAreas | code/mm/mm_init.c:200-218 | the table is the available entries in order, ends in 64 bits, and the segment is the last area that holds the boot allocator's pointer; if no end wraps, the state is one that LinearRun starts from |
| LinearAlloc.AvailableAt | code/mm/mm_init.c:200-218 | entry by entry, which area it gives and at which place |
| LinearAlloc.LinearAllocator.Alloc | code/mm/mm_init.c:34-76 | the code with its static variables computes AllocLinear |
| LinearAlloc.BootAllocator.Alloc | code/arch/x86/boot/mm_boot.c:90-111 | the bump allocator computes AllocBoot |
| MmInit.ReleasedExactly | code/mm/mm_init.c:275-285 | the frames released of an entry are those of the addresses, one page apart from its start on, that are at or above the end of the segment and inside it |
| MmInit.ReleasedAboveIff | code/mm/mm_init.c:275-285 | the frames released of an entry are at or above the end of the segment if and only if the entry does not start behind that end in its page |
| MmInit.ReleasedInsideIff | code/mm/mm_init.c:275-285 | they lie inside the entry if and only if it covers whole pages there |
| MmInit.ReleasedBeyond | code/mm/mm_init.c:275-285 | an entry of which a frame is released that reaches beyond it |
| MmInit.HandOver | code/mm/mm_init.c:271-286 | no page released to the buddy system was part of a chunk of the linear allocator or of the boot allocator before it, under the condition of ReleasedAboveIff |
| MmInit.HandOverFails | code/mm/mm_init.c:271-286 | an area and an entry that do not meet it, and a frame of a chunk handed out that is released |
| MmInit.ReleasePages | code/mm/mm_init.c:271-286 | the loops over entries and frames leave the buddy system, links and flags, as the build-up of the released runs |
| MmInit.ReleaseEntry | code/mm/mm_init.c:275-285 | for one entry, exactly the frames of the addresses that the loop comes to at or above the end of the segment are freed, if it is available memory |
| MmStart.Start | code/mm/mm_init.c:268-297 | freelists, release and caches one after the other: buddy system and slab allocator end up in order, as the released runs build them up, with nothing issued; a page is free if and only if the loops come to an address in it |
| PageTable.SamePage | code/include/mm/page_table.h:25-28 | two addresses have the same four indices if and only if they have the same page number |
| PageTable.WalkDigits | code/include/mm/page_table.h:25-28 | the entry of an address is found along the digits of its page number in base 512, from the first on |
| PageTable.OrKeepsFrame | code/mm/pgtable.c:58-77 | attribute bits do not change the frame of an entry |
| PageTable.WalkIsFlat | code/mm/pgtable.c:9-39 | in a tree of tables, the walk of any address reads the flat map |
| PageTable.EnterTree | code/mm/pgtable.c:58-62 | a fresh table at a missing entry keeps the tree, shares no frame, and changes no page's entry |
| PageTable.EnterBits | code/mm/pgtable.c:58-62 | the entry of a new table has the bits of its address and of the attributes, and no others |
| PageTable.EnterAlwaysIff | code/mm/pgtable.c:58-62 | a new table at a missing entry keeps the tree, wherever it is allocated, if and only if the attributes are bits of the low twelve |
| PageTable.EnterTreeIff | code/mm/pgtable.c:58-62 | for one address of the new table: if and only if the attributes leave the address alone |
| PageTable.StrayTable | code/mm/pgtable.c:58-62 | a table and attributes for which the entry leads to another frame |
| PageTable.PutLeaf | code/mm/pgtable.c:76-77 | writing the leaf entry changes the flat map at this page only |
| PageMap.LookupIsFlat | code/mm/pgtable.c:33-38 | the lookup agrees with the flat map everywhere but at the two addresses of physical page 0 |
| PageMap.AddressSpace.Lookup | code/mm/pgtable.c:9-39 | the walk computes this lookup |
| PageMap.AddressSpace.Map | code/mm/pgtable.c:42-78 | with attributes of the low twelve bits, or no table missing: it stops at a failed allocation exactly if fewer pages are free than tables are missing; otherwise the page has entry pa or attr, every other page has the entry it had, new tables are entered with the attributes, and no table frame is free |
| PageMap.OnePage | code/mm/page_alloc.c:177-194 | allocating one page fails exactly if no page is free, and otherwise takes exactly one free page |
| BootMap.BootTables.Map | code/arch/x86/boot/mm_boot.c:144-179 | a table allocation fails exactly if there is no room for the tables missing; if none does, one update of the flat map; in any case memory is as the three levels leave it |
| BootRefused.MappedIff | code/arch/x86/boot/mm_boot.c:144-179 | from a tree of tables, one call maps its page and changes no other, whatever the page, if and only if there is room for all the tables missing but one |
| BootRefused.RefusedTablesShared | code/arch/x86/boot/mm_boot.c:159-178 | with one table refused already, mapping another page can unmap the first |
| BootMap.BootTables.Init | code/arch/x86/boot/mm_boot.c:181-218 | for every image size, bit by bit: outside slot 0 each address of the image is mapped to its frame, present, and writable exactly from the end of its read-only part on; the first 10 MB are mapped writable at the direct mapping; nothing else is mapped; every entry of every table is empty or present; table allocation fails only if memory is exhausted |
| BootMap.BootLookup | code/mm/pgtable.c:33-38 | in the table so built, the lookup of an address in the image or the first 10 MB gives its physical page, but in physical page 0 for its first byte only |
| BootMap.BootDirect | code/arch/x86/boot/mm_boot.c:207-213 | its direct mapping is the one that the addresses of the slab allocator are for |
| BootMap.SlotZeroApart | code/arch/x86/boot/mm_boot.c:215-218 | setting slot 0 affects no address outside it |
| Slub.IndexIsLeastClass | code/mm/slub.c:59-84 | the class is the least that holds the size, and there is one exactly for sizes that kmalloc lets through |
| Slub.SlabShape | code/mm/slub.c:14-16 | a slab is a whole number of objects, two at least, and its order is one the buddy system has |
| Slub.ThreadChains | code/mm/slub.c:19-31 | the words that slub_alloc writes chain all objects of the slab, in order, and end in NULL |
| Slub.ThreadElsewhere | code/mm/slub.c:23-31 | they are written inside the slab only |
| SlubHeap.TrimKeeps | code/mm/slub.c:8-34 | a new slab on a block apart from all others leaves all chains and lists in order |
| SlubHeap.PopKeeps | code/mm/slub.c:103-108 | a popped object is the first unissued one of the current slab, and the chain goes on behind it |
| SlubHeap.RetireKeeps | code/mm/slub.c:110-114 | a current slab with an empty freelist has no unissued object, and goes from current to full |
| SlubHeap.TakePartialKeeps | code/mm/slub.c:116-122 | the first partial slab becomes current, with the chain its descriptor held |
| SlubRuns.AllocObjSound | code/mm/slub.c:91-134 | from any state in order: the state stays in order, the object is a new one, and there is none exactly if chains and partial slabs are exhausted and no block is free |
| SlubRuns.WritesKeep | code/mm/slub.c:91-134 | whatever clients write into their objects, the chains through the others survive |
| SlubRuns.KmallocSound | code/mm/slub.c:136-167 | an object of at least the size asked for, apart from all others, or NULL exactly if the size is too large or nothing is left |
| SlubRuns.KmallocRun | code/mm/slub.c:160-167 | over every run of kmalloc and client writes, no two objects overlap and none is issued twice |
| SlubFrames.RunLands | code/mm/slub.c:18-31 | over every run of kmalloc and client writes, each byte of each object is translated by the page tables to a frame that the buddy system gave for the object's slab |
| SlubFrames.NewSlabLands | code/mm/slub.c:18-31 | the words written for a new slab, and its first object, lie in the frames of its block |
| SlubFrames.AddrTranslates | code/mm/slub.c:21-22 | the address that slub_alloc computes for a page is translated to page_to_phys of it |
| SlubFrames.TurnLands | code/mm/page_alloc.c:157-168 | the bytes in which the holder of a block may write are those in its frames |
| SlubAlloc.SlabAllocator.TakeObject | code/mm/slub.c:102-129 | the code, with its lists, fields and jumps to redo, ends and computes AllocObj |
| SlubAlloc.SlabAllocator.KmemCacheAlloc | code/mm/slub.c:91-134 | the same, and the state stays in order with the object among the issued ones |
| SlubAlloc.SlabAllocator.SlubAlloc | code/mm/slub.c:8-34 | pages from the buddy system as it runs, trimmed into a chain |
| SlubAlloc.SlabAllocator.Refill | code/mm/slub.c:110-129 | a round without a free object: the rest of the allocation is unchanged, and fewer rounds are left |
| SlubAlloc.SlabAllocator.KmallocSize | code/mm/slub.c:136-167 | the code computes one step of the runs above |
| SlubAlloc.SlabAllocator.KmemCacheInit | code/mm/slub.c:36-57 | all caches empty, with sizes 16 to 8192, nothing issued, and the state in order that kmalloc needs |
| BuddyWork.MicroFinishes | code/mm/page_alloc.c:46-155 | the small steps of an allocation or a free, one after the other, amount to the whole; there are at most 2^order + 30 |
| Smp.LocksKept | code/include/sumios/lock.h:14-31 | over interleaved compare-and-swap steps of any number of CPUs, a lock word says whether it is held, and at most one CPU holds a lock |
| Smp.UnlockFirstTime | code/include/sumios/lock.h:26-31 | the holder's compare-and-swap in spin_unlock succeeds at once |
| Smp.NoDeadlock | code/mm/slub.c:100-132 | with a cache lock held around the freelist lock, some CPU that is not idle can always get on |
| Smp.StepsForward | code/include/sumios/lock.h:19-31 | every step that is not a failed compare-and-swap changes the state |
| SmpOrder.LinearKept | code/mm/page_alloc.c:157-175 | at each step, the state of the free lists is that of the jobs run one at a time in lock order, up to the rest of the job at work |
| SmpOrder.LockOrder | code/mm/page_alloc.c:157-175 | every concurrent history of alloc_pages and free_pages is a sequential one in lock order: each CPU has a turn of its own and the page of that turn, and the final state is the same |
| SmpOrder.OwnTurnsKept | code/mm/page_alloc.c:157-175 | no step, frees included, gives two CPUs the same job of the sequential run |
| SmpOrder.HeldNext | code/mm/page_alloc.c:157-175 | a block is held from the return of alloc_pages on until free_pages is called with its page, and no other step makes a difference |
| SmpOrder.HeldUntilFreed | code/mm/page_alloc.c:157-175 | the same over every interleaving; the page is that of the turn |
| SmpAlone.AloneBusy | code/mm/page_alloc.c:46-155 | a CPU's small steps through a job, with no other in between, have the job's result and effect |
| SmpAlone.AloneAllocates | code/mm/slub.c:102-133 | a CPU's steps from redo to the unlock, with no other in between, compute AllocObj, so the machine and the allocator of one CPU are the same code |
| SmpSafe.SafeKept | code/mm/slub.c:91-134 | every step of every CPU keeps caches, chains, slabs and blocks in order, while others are in the middle of theirs |
| SmpSafe.SafeRun | code/mm/slub.c:91-134 | over every interleaving of kmem_cache_alloc, alloc_pages and writes of clients into objects and blocks they hold, no two objects and no two blocks overlap, no object overlaps a block that a caller of alloc_pages holds, and the chains survive |
| SmpSafe.SafeFromInit | code/mm/slub.c:36-134 | the same from where kmem_cache_init leaves the caches |
| SmpFrees.SafeIffProper | code/mm/page_alloc.c:157-175 | for every history in lock order whose frees give back held blocks: blocks held stay apart from each other and from free ones, and no page is lost or gained, after every turn, if and only if each free meets the condition of FreeExactIff at its turn |
| SmpFrees.FreesSafe | code/mm/page_alloc.c:157-175 | over every interleaving of alloc_pages and free_pages on any number of CPUs, under that condition: the same, and the blocks of any two turns that were not given back share no page |
| SmpSafe.TurnsNext | code/mm/page_alloc.c:157-168 | the block of each turn at the freelist lock is apart from those of all turns before |
| Tty.PutsForward | code/arch/x86/tty.c:139-174 | on the endless page, the row never goes back, and rows above the cursor never change |
| Tty.PutsPlain | code/arch/x86/tty.c:160-163 | text without control characters lies on the page as it reads, at consecutive places |
| Tty.PutsLines | code/arch/x86/tty.c:139-174 | lines of less than 80 plain characters with a newline behind each, from the start of a row on, lie in consecutive rows; the cursor ends at the start of the row behind them, and no other row changes |
| Tty.PlainAndNewline | code/arch/x86/tty.c:143-165 | a plain character is written at the cursor in its colour, and moves it by one; a newline goes to the start of the next row |
| Tty.ReturnAndBackspace | code/arch/x86/tty.c:147-155 | a carriage return goes to the start of the row, a backspace one place back but not out of it; neither writes |
| Tty.TabIsBlanks | code/arch/x86/tty.c:156-161 | a tab of any colour is four blanks in the default colour |
| Tty.TopIsLeast | code/arch/x86/tty.c:166-170 | the screen scrolls no further than it must to show the cursor |
| Tty.CellBytes | code/arch/x86/tty.c:73-76 | the two bytes of a cell are colour and character |
| Tty.Screen.RollScreenMem | code/arch/x86/tty.c:78-88 | the two loops move the rows up and blank the last |
| Tty.Screen.KputcharCga | code/arch/x86/tty.c:139-174 | for every character, the buffer stays the 25-row window on the page that the character's meaning leads to, and the cursor stays inside |
| Tty.Screen.ClearScreen | code/arch/x86/tty.c:192-205 | the window is at the top of a blank page |
| Print.PrintedParses | code/lib/print.c:18-37 | the printed number, parsed, is the number, for every 64-bit number but the least; no leading zeros |
| Print.LeastNumber | code/lib/print.c:26-34 | the least number is printed as text that does not parse |
| Print.HexParses | code/lib/print.c:39-58 | for every 64-bit number, the output is the one text without leading zeros that parses to it in base 16 |
| Print.DigitsUnique | code/lib/print.c:31-55 | no other text without leading zeros has the value |
| Print.NumberOnPage | code/lib/print.c:18-37 | a printed number is read back from the screen cells it was printed to |
| Print.Kprintstr | code/lib/print.c:5-10 | the characters up to the terminator go to the screen |
| Print.FillDecimal | code/lib/print.c:20-34 | the loop fills the buffer from its end with the digits, at least ten places short of its start |
| Print.Kprintnum | code/lib/print.c:18-37 | the screen shows the sign and digits |
| Print.FillHex | code/lib/print.c:41-55 | the same for base 16 |
| Print.Kprinthex | code/lib/print.c:39-58 | the screen shows the digits |

## Left out

- PageAlloc.PageAllocator.FreePages: the page must not be on a list, so a double free is not covered; and it needs what every run keeps, that a page flagged free and head is linked. Nothing is asked about orders.
- BuddyRuns.RunSafe: frees are restricted to the exact condition of BuddyFree.FreeExactIff; allocations are not restricted.
- BuddyHome.BootRuns: runs must be 512 frames apart, since the coalescing loop looks that far back; descriptors of freed frames must be mapped, and no descriptor may be flagged free and head before. That mm_init.c sets up descriptors so is not derived here.
- LinearAlloc.LinearRun: no sum of the run may wrap; ChunkFitsIffNoWrap and WrappedChunk say what a wrap does.
- LinearAlloc.BootRunBelow: the same, with BootChunkFitsIffNoWrap and BootWrappedChunk.
- LinearAlloc.LinearAllocator.CollectAreas: the table has 32 places and the code does not check, so there are at most 32 available entries.
- MmInit.HandOver: no sum of the two runs may wrap, entries of which frames are released must meet the condition of ReleasedAboveIff, and the boot allocator's pointer must be in an available area.
- MmInit.ReleasePages: the runs released must meet the conditions of BuddyHome.BootRuns. Addresses in the release loop do not wrap, as they would for an entry that ends near 2^64.
- MmStart.Start: the page descriptors exist, mapped ones are not flagged free, and the runs are as in ReleasePages.
- PageMap.AddressSpace.Map: when an allocation fails the code clears memory below the direct mapping, where nothing is mapped; the model stops there. With attributes above the low twelve bits and tables missing nothing is promised: by EnterAlwaysIff it depends on where a table is allocated. Frame 0 must not be free, as an entry for a table there would look empty.
- BootMap.BootTables.Init: says nothing about addresses in slot 0 beyond the entry itself, and nothing about the mapping once a table allocation has failed.
- BootMap.BootTables.Map: the flat map is promised while no table allocation has failed and no new table was given attributes above the low twelve bits; the first failing call is settled by BootRefused.MappedIff, and calls after it only by the memory they leave.
- PageSizes.OrderForSize: sizes up to 2^63 only, since the loop does not end for larger ones.
- SmpSafe.SafeRun: CPUs allocate only. With frees, SmpFrees.FreesSafe has the blocks, and says nothing about kmalloc objects; their slabs are never given back by the code.
- SmpFrees.FreesSafe: the condition on frees is on the history in lock order, as only that tells what is free and held when a free begins.
- SmpOrder.LockOrder: puts no condition on frees, and is about freelists and flags as values; that the links in memory follow these values is shown by PageAlloc.PageAllocator.FreePages, for pages that are on no list. Freeing a page that is on a list writes links that the values do not describe.
- Smp.NoDeadlock: says that some CPU can always get on, not that each one gets its lock in the end; the spin locks are not fair.
- Inside a cache's critical section the machine of Smp.dfy takes a round of kmem_cache_alloc, and the trimming of a slab, as one step; inside the freelist lock steps are as small as one list operation or one flag.
- Memory ordering weaker than sequential consistency: each step is atomic and visible at once.
- `ref_count` and `map_count`: the code keeps no clean invariant of them, and nothing here depends on them.
- Negative orders, and kprintf messages on errors.
- `mm_init_pgtable_map` and `mm_init_pgtable_get_pa`: the same walk and update as in pgtable.c, with the linear allocator in place of the buddy system.
- SlubFrames.RunLands: that the frames of the buddy system are in the direct mapping is assumed; BootDirect shows it for the first 10 MB.
- BuddyFree.BetweenTwo: for the case that the joined block finds no further neighbour.
- The loops of mm_init.c that map the direct mapping and set up page descriptors, and the removal of the identity mapping at the end.
- `boot_get_pgtable_map_pa`: not used, and it does not mask attributes off the entries it follows.
- Permissions as the processor combines them over the levels of a walk: upper entries keep the attributes of the first mapping through them.
- Multiboot2 parsing: the memory map is a sequence of entries, at most 32 of them available.
- `kfree`, `__kmalloc_large` and `__reclaim_memory`: empty in the code.
- `kprintf` with its argument list, `kputs`, `mm_alloc`: thin layers over what is modelled.
- Slab memory at finer grain than aligned words, and wrap-around of addresses in the direct mapping.
- Serial and parallel ports, cursor registers, CR3, and the assembly of boot.
