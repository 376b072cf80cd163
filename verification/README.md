# Verified model of a small operating system's core

This project models the parts of the system that keep state or compute under invariants, and proves what they
promise over every call, every run and every interleaving. Code that changes memory in place is modelled by classes
and loops; each such method is proved against a function on values, and the theorems are about those functions.

- **Heap** (`Bitmap`, `PhysicalPages`, `BucketModel`, `BucketSafety`, `BucketTheorems`, `BucketPages`, `BucketMemory`,
  `BucketAllocator`). A bitmap hands out pages, first fit. On top, `kmalloc` and `kfree_s` keep nine chains of
  one-page buckets whose free lists run through the free blocks, and a spare chain of descriptors. `BucketModel` is
  the heap as sequences and sets; `BucketTheorems` has its invariant over all runs; `BucketPages` counts the pages that
  calls take and has the two calls undo one another; `BucketMemory` says when memory (directory, descriptors, links)
  represents that heap; `KernelHeap` is the code on memory, proved to follow it.
- **Scheduler** (`TaskSelection`, `TaskTable`, `SmpScheduler`, `SchedulerLedger`, `SchedulerFairness`,
  `SchedulerProgress`, `SchedulerLatency`, `SelectionSteps`). The table of task objects and its selection; then any
  number of cores, each with a current task and a place in the timer or broadcast handler, taking atomic steps under the
  exchange lock; time slices, shares and waiting over runs; what each handler comes to from interrupt to return; how
  many ticks a task waits at most; and selections slot by slot with tasks being created in between.
- **Page tables** (`PageBits`, `PageTables`, `PageMapper`, `MapperCode`, `Ioremap`, `PageRights`, `PagePool`). The boot
  tables and the 2 MB mapper on 64-bit words, walked as 4-level paging does (section 4.5 of the Intel SDM, Volume 3A):
  the steps on tables, the code whose loads and stores go through the very translation, the runs from boot, the rights
  that the flag bits give, and the pages as the page allocator hands them out.
- **Wait and post** (`WaitPost`, `PostDelivers`). Named wake-ups from mutexes, conditions and wait maps, as steps over
  any number of threads, spurious wake-ups included: the invariant of all runs, and what a wait and a post come to.
- **Checksums and headers** (`Checksum`, `PacketHeaders`). Both forms of the Internet checksum (RFC 1071) with their
  32-bit accumulators, and the IPv4, UDP and TCP header builders that store them.
- **Number formatter** (`NumberFormat`) and **circular list** (`RingList`).

Integer widths are written out where the code depends on them: page numbers shifted in 32 bits, the 32-bit bit count
of the scan, the 64-bit time-slice counter, the 32-bit checksum sum, the 32-bit number formatter, 64-bit entries.

Assumptions that the model makes explicit: the free-block link is one cell; `sizeof(struct bucket_desc)` is 32; the
pages managed lie below 4 GB (`LOW_LIMIT`), because the allocator casts addresses to 32 bits; a free is of a live block
with a length of its own class; pages that others take and return are not those of the allocator; kmalloc is called
only while a length too large, a block, a spare descriptor or a page makes it stay off page 0; a task is created only
while a slot is empty; thread names are unique and registered; the byte order is little endian.

Where the code does not do what its documentation or intent says, the model follows the code, gives the exact
condition and an input that fails: `PagesDistinctIff` (pages alias past 2^20), `LostOnlyWithoutPage` and
`FirstCallOnLastPage` (a descriptor is dropped when a bucket gets no page), `LegalMallocIff`, `FirstCallWithoutPages` and
`KMalloc` (kmalloc carves page 0, where the bitmap is, and hands out a page in use), `CreateLegalIff` and `FullTable` (a
task stored outside the table), `RangeIff`, `ReusedIff` and `TableHandedOutTwice` (page 0 used as a table, and then a
table handed out again), `PageFaultIff` and `FirstTableFaults` (table pages that are not translated), `ReachableIff`,
`PageIdentityIff` and `HighPageMovesTables` (bits 48 to 51 of an address), `ZeroPriorityWrapsIff` and
`ZeroPriorityWraps` (priority zero wraps the slice), `ByteOrderIff` and `OneWordTooMany` (byte orders can disagree past
65537 words), `WidthIff` and `SmallestWidth` (a width near the smallest int), `ListDel` (the comment at
components/include/list.h:197-199 says that deleting a head empties its list; it does not).

## Model

| member | source | states |
|---|---|---|
| `Bitmap.StopIsFirstHit` | x64_kenerl/libs/bitmap.c:62-90 | the scan stops at the lowest start of `count` consecutive clear bits inside the limit, and finds none only when there is none |
| `Bitmap.ByteValue` | x64_kenerl/libs/bitmap.c:27-33 | bit k of a byte is the one that counts 2^k in the value of the byte |
| `Bitmap.Bits.constructor` | x64_kenerl/libs/bitmap.c:6-18 | every bit is clear and the map has the given offset |
| `Bitmap.Bits.Test` | x64_kenerl/libs/bitmap.c:21-34 | the answer is bit (index - offset), subtracted in 32 bits, of the whole bit string |
| `Bitmap.Bits.Set` | x64_kenerl/libs/bitmap.c:37-57 | exactly bit (index - offset) takes the value, every other bit of the map stays |
| `Bitmap.Bits.Scan` | x64_kenerl/libs/bitmap.c:60-107 | first fit: the lowest run of `count` clear bits is set and nothing else, and its index is returned as a C int; without a run EOF and no bit changed; the answer is -1 exactly for no run, or for a run whose index counted from the offset is 2^32 - 1 |
| `PhysicalPages.PagesDistinctIff` | x64_kenerl/kernel/phymm.c:70-77 | because the shift is done in 32 bits, distinct page numbers have distinct addresses if and only if the bitmap covers at most 2^20 pages |
| `PhysicalPages.PageRoundTrip` | x64_kenerl/kernel/phymm.c:76-82 | free_page computes back the page number that get_free_page turned into an address, below 2^20; above, the address is that of the page number modulo 2^20 |
| `PhysicalPages.ScanIsLowestFree` | x64_kenerl/kernel/phymm.c:72 | a bitmap scan for one bit is the choice of the lowest number not in the set of taken pages |
| `PhysicalPages.PageAllocator.GetFreePage` | x64_kenerl/kernel/phymm.c:70-77 | refines the set of taken pages: the lowest free number joins it, or NULL and the set unchanged when every page is taken |
| `PhysicalPages.PageAllocator.FreePage` | x64_kenerl/kernel/phymm.c:80-84 | exactly the page of the address leaves the set of taken pages |
| `PhysicalPages.ReusedIff` | x64_kenerl/kernel/phymm.c:27-77 | once get_free_page has answered NULL and its caller has zeroed page 0, where the bitmap is, the next answer is a page in use, the first one, if and only if the allocator has pages |
| `PhysicalPages.PageAllocator.ZeroPageZero` | x64_kenerl/kernel/phymm.c:27 | zeroing page 0 frees exactly the pages whose bits lie in it, those below 22528 |
| `BucketTheorems.ClassOfMeaning` | x64_kenerl/mm/malloc.c:59-63 | the class picked is the first whose blocks hold `len` bytes, none exactly above 4096 |
| `BucketTheorems.BlockLength` | x64_kenerl/mm/malloc.c:21-32 | its blocks have the least power of two from 16 up that holds `len` bytes, so 16 bytes or fewer than twice `len` |
| `BucketTheorems.MallocKeeps` | x64_kenerl/mm/malloc.c:51-118 | kmalloc keeps the heap invariant and hands out exactly one block that no class had handed out, of the class of `len`; when it fails the set of live blocks is the same |
| `BucketTheorems.MallocFailsIff` | x64_kenerl/mm/malloc.c:60-90 | exactly when each of the three failures happens, in terms of length, exhausted chain, spare descriptors and free pages |
| `BucketTheorems.LegalMallocIff` | x64_kenerl/mm/malloc.c:76-83 | exactly when a call of kmalloc stays off page 0: the length is too large, a block or a spare descriptor is left, or a page is free |
| `BucketTheorems.FirstCallWithoutPages` | x64_kenerl/mm/malloc.c:38-49 | a call that does not: the first one, when others hold every page |
| `BucketTheorems.FreeKeeps` | x64_kenerl/mm/malloc.c:120-180 | kfree_s of a live block keeps the invariant and takes back exactly that block; of an address in no bucket of the class it changes nothing |
| `BucketTheorems.LiveBlocksDisjoint` | x64_kenerl/mm/malloc.c:100-117 | any two live blocks, of whatever classes, are disjoint as address ranges |
| `BucketTheorems.LiveBlockPlaced` | x64_kenerl/mm/malloc.c:100-117 | a live block is aligned to its class size and lies in a page that the bitmap has given to a bucket of that class |
| `BucketTheorems.DescriptorsApart` | x64_kenerl/mm/malloc.c:38-49 | no live block overlaps a descriptor and no two descriptors overlap |
| `BucketTheorems.RefCountPlusFree` | x64_kenerl/mm/malloc.c:100-115 | for every linked bucket: handed-out blocks plus free-list length is 4096 / block size, at least one is handed out, and the free list has no duplicates and only blocks of its own page |
| `BucketTheorems.DescriptorConserved` | x64_kenerl/mm/malloc.c:76-110 | every descriptor ever carved is in exactly one place: one position of one directory chain, the spare chain, or lost; and every slot of a descriptor page is one |
| `BucketTheorems.PageConserved` | x64_kenerl/kernel/phymm.c:70-84 | every page taken from the bitmap is a descriptor page, somebody else's, or the page of exactly one linked bucket of its class |
| `BucketTheorems.LostOnlyWithoutPage` | x64_kenerl/mm/malloc.c:81-90 | a descriptor is dropped from both kinds of chain exactly when kmalloc finds no page for the new bucket, one each time |
| `BucketTheorems.FirstCallOnLastPage` | x64_kenerl/mm/malloc.c:81-90 | a call that drops one: the first, when others hold every page but one |
| `BucketTheorems.AllFreed` | x64_kenerl/mm/malloc.c:159-178 | with no live block every directory chain is empty, no page belongs to a bucket and every descriptor is spare or was lost before |
| `BucketTheorems.RunKeeps` | x64_kenerl/mm/malloc.c:51-180 | over every legal run of calls and of foreign page traffic the invariant holds and the live blocks are exactly those the client holds: allocated and not yet freed, each with the length asked for |
| `BucketTheorems.EveryRunIsSafe` | x64_kenerl/mm/malloc.c:51-180 | from boot over every legal run: a block held for `len` bytes, at most 4096, has n bytes for itself, n the least power of two from 16 up that holds `len` (so 16 or less than twice `len`): it is aligned to n and its n bytes overlap no other block and no descriptor; once all are freed every chain is empty |
| `BucketPages.CallTakes` | x64_kenerl/mm/malloc.c:65-110 | a call that finds a free block takes no page and no descriptor; any other that answers takes one page, whose other blocks it leaves free, and one page of descriptors exactly when there is none spare |
| `BucketPages.PagesForCalls` | x64_kenerl/mm/malloc.c:65-117 | any number of calls for blocks of n bytes, the first of which has to take a page, take exactly one page for each 4096 / n of them, rounded up, and one more for each 128 of those beyond the spare descriptors |
| `BucketPages.MallocThenFree` | x64_kenerl/mm/malloc.c:51-180 | freeing what kmalloc has just handed out gives back the very same heap, but for a page of descriptors if it had to carve one |
| `BucketPages.FreeThenMalloc` | x64_kenerl/mm/malloc.c:112-156 | a block freed is the next one handed out for its class, and that gives back the very same heap, if its page stays and the pages before it in the chain are full |
| `BucketPages.LowPagesIff` | x64_kenerl/mm/malloc.c:101 | the page numbers considered are exactly those whose bytes all have 32-bit addresses |
| `BucketMemory.ClientWrite` | x64_kenerl/mm/malloc.c:104-114 | whatever the holder of a live block writes into its first word, the in-memory chains and free lists still represent the same heap |
| `BucketMemory.DropRep` | x64_kenerl/mm/malloc.c:159-178 | unlinking a bucket from any position of its chain leaves memory representing all other chains, buckets and free lists unchanged and the descriptor on the spare chain |
| `BucketAllocator.LastBlock` | x64_kenerl/mm/malloc.c:157-160 | the stored reference count reaches zero exactly when the block given back is the only one handed out |
| `BucketAllocator.KernelHeap.constructor` | x64_kenerl/mm/malloc.c:21-34 | boot: memory and bitmap represent the empty heap |
| `BucketAllocator.KernelHeap.CarvePage` | x64_kenerl/mm/malloc.c:42-48 | from whatever address get_free_page answered, the descriptors are linked in address order and end in NULL, and no other descriptor changes |
| `BucketAllocator.KernelHeap.ThreadPage` | x64_kenerl/mm/malloc.c:100-106 | the links stored in the new page chain its blocks in address order, ended by NULL, and nothing outside the page changes |
| `BucketAllocator.CarvedFree` | x64_kenerl/mm/malloc.c:44-47 | with every page in use, the links stored in page 0 make page 64 the lowest that looks free, if and only if there are more than 64 pages |
| `BucketAllocator.LinkStored` | x64_kenerl/mm/malloc.c:44-47 | read as eight bytes, the lowest first, each link over the bitmap is the address of the next descriptor in page 0, 32 further on, and 0 at the end |
| `BucketAllocator.KernelHeap.CarveBitmap` | x64_kenerl/mm/malloc.c:44-47 | the bytes of the bitmap after the links are stored over it, each of them |
| `BucketAllocator.KernelHeap.KMalloc` | x64_kenerl/mm/malloc.c:51-118 | memory, directory, spare chain and bitmap keep representing the heap, which changes exactly as the abstract kmalloc says; when no page is left for descriptors page 0 is carved: with at most 64 pages the answer is NULL and exactly page 0 has changed, with more the answer is the first block of page 64, which is in use, a free list runs through that page and the directory entry is NULL |
| `BucketAllocator.KernelHeap.TakePage` | x64_kenerl/kernel/phymm.c:70-77 | another client of the page allocator takes the lowest free page, and the heap is the same |
| `BucketAllocator.KernelHeap.GivePage` | x64_kenerl/kernel/phymm.c:80-84 | another client gives back a page of its own, and the heap is the same |
| `BucketAllocator.KernelHeap.Unlink` | x64_kenerl/mm/malloc.c:164-173 | walking from the head finds the predecessor, and exactly its `next` (or the directory entry) is redirected past the bucket |
| `BucketAllocator.KernelHeap.KFreeS` | x64_kenerl/mm/malloc.c:120-180 | memory, directory, spare chain and bitmap keep representing the heap, which changes exactly as the abstract kfree_s says |
| `TaskSelection.BestIsBest` | x64_kenerl/kernel/task64.c:32-51 | the scanning loops hold the lowest slot among the highest priority in the state looked for |
| `TaskSelection.PickMeaning` | x64_kenerl/kernel/task64.c:25-85 | null if and only if no task is ready or waiting; otherwise the best ready task, or the best waiting one when none is ready |
| `TaskSelection.SelectedSlot` | x64_kenerl/kernel/task64.c:53-79 | slot by slot: the pick runs, a refill gives exactly the waiting tasks a full slice, every other slot is untouched |
| `TaskSelection.ParkedNeverNull` | x64_kenerl/asm/apic_interrupts.asm:198-213 | after parking an expired task the selection always finds a task, so the null exit is not taken |
| `TaskTable.Table.GetFreeTaskIndex` | x64_kenerl/kernel/task64.c:16-23 | the first empty slot, or -1 with none |
| `TaskTable.Table.AddTask` | x64_kenerl/kernel/task64.c:87-92 | exactly the slot of the pid changes; at pid -1 the store is outside the table |
| `TaskTable.Table.CreateTask` | x64_kenerl/kernel/task64.c:126-189 | a new task goes into the first empty slot, and the store stays inside the table if and only if some slot is empty |
| `TaskTable.Table.Charge` | x64_kenerl/asm/apic_interrupts.asm:168 | the charge of the timer handler takes one tick, modulo 2^64, from exactly the slot of the task |
| `TaskTable.Table.Park` | x64_kenerl/asm/apic_interrupts.asm:200 | parking is the park step of the scheduler on the table, other slots untouched |
| `TaskTable.Table.Mark` | x64_kenerl/asm/apic_interrupts.asm:92-93 | marking is the mark step of the scheduler on the table, other slots untouched |
| `TaskTable.Table.RefillWaiting` | x64_kenerl/kernel/task64.c:55-68 | in place: exactly the waiting tasks become ready with a full slice, and the best of them is held |
| `TaskTable.Table.GetNextReadyTask` | x64_kenerl/kernel/task64.c:25-85 | the table of shared task objects changes exactly as the specified selection, and the object returned is the one in the picked slot |
| `TaskTable.TaskObj.Decrease` | x64_kenerl/kernel/task64.c:312-316 | one tick less, or 2^64 - 1 after zero, and the new value is returned |
| `SmpScheduler.CreateLegalIff` | x64_kenerl/kernel/task64.c:16-23 | the slot that get_free_task_index finds is inside the table if and only if some slot is empty |
| `SmpScheduler.FullTable` | x64_kenerl/kernel/task64.c:16-23 | an input that fails: a table with a task in every slot |
| `SmpScheduler.StepKeeps` | x64_kenerl/asm/apic_interrupts.asm:63-245 | every step of every core, both interrupts and a task stored in any empty slot keep the safety invariant, a selection being one step; what the steps come to is TimerHandler and BroadcastHandler |
| `SmpScheduler.SelectKeeps` | x64_kenerl/asm/apic_interrupts.asm:210-218 | a selection under the lock keeps the safety invariant (the task picked is on no core), and it is null only on a core without a task |
| `SmpScheduler.LockKeeps` | x64_kenerl/asm/spinlock.asm:19-30 | the exchange lets in one core at a time |
| `SelectionSteps.SlotBySlotIsOneStep` | x64_kenerl/kernel/task64.c:25-92 | every run in which selections go slot by slot, with tasks created between any two slots under the other lock, is a run in which they are one step, up to creations that come after it |
| `SelectionSteps.NeverOnTwoCores` | x64_kenerl/asm/apic_interrupts.asm:63-240 | in every interleaving of any number of cores, selections slot by slot and creations in between: no task is current on two cores, at most one core is in the critical section, and while the lock is free the running tasks are exactly the current ones |
| `SelectionSteps.LedgerSlotBySlot` | x64_kenerl/kernel/task64.c:25-92 | in the same runs, with positive priorities, the ledger of time slices holds whenever the lock is free |
| `SelectionSteps.SelectionEnds` | x64_kenerl/kernel/task64.c:25-85 | in the same runs a selection under way ends, and its core goes on, within two steps of that core for each slot and two more |
| `SchedulerProgress.TimerHandler` | x64_kenerl/asm/apic_interrupts.asm:147-245 | in every interleaving, a core interrupted by its timer and given seven turns takes the lock and returns; a task it has is charged exactly one tick, and keeps the core if that leaves any, else it is parked; a core without a task, or whose task was parked, goes on with the first task of the highest priority that is ready at its selection, or waiting when none is, and without a task only when nobody is ready or waiting; all other slots are as they were or refilled |
| `SchedulerProgress.BroadcastHandler` | x64_kenerl/asm/apic_interrupts.asm:63-143 | the same for the broadcast: given six turns a core with a task returns with it and changes nothing, and one without takes the lock and goes on with the best task there is |
| `SchedulerLedger.LedgerKeeps` | x64_kenerl/kernel/task64.c:53-68 | every step keeps the ledger: ready means a full slice, waiting an empty one, and the ticks charged are whole rounds plus the slice used |
| `SchedulerLedger.LedgerMeaning` | x64_kenerl/kernel/task64.c:129 | while the lock is free: ready implies counter = priority, running implies 1 <= counter <= priority, waiting implies 0, and there is no other state |
| `SchedulerLedger.ChargeNeverWraps` | x64_kenerl/asm/apic_interrupts.asm:168-170 | the task charged by a timer interrupt has at least one tick left |
| `SchedulerLedger.RunLedger` | x64_kenerl/asm/apic_interrupts.asm:147-240 | the ledger over every run, task creation included |
| `SchedulerFairness.ProportionalShare` | x64_kenerl/kernel/task64.c:53-68 | one core, fixed fresh tasks of positive priority: at every point of every run ticks_i * prio_j and ticks_j * prio_i differ by at most prio_i * prio_j |
| `SchedulerFairness.BoundedWaiting` | x64_kenerl/kernel/task64.c:32-79 | with N tasks and no creation, any ready or waiting task is dispatched within 2N - 1 successful selections, on any number of cores and whatever the priorities |
| `SchedulerLatency.TickBound` | x64_kenerl/asm/apic_interrupts.asm:147-240 | with N tasks of priorities from 1 to p and no creation, whatever all the cores do, any ready or waiting task is dispatched before any one core has had more than (2N - 1)(p + 2) + p + 1 timer ticks |
| `SchedulerFairness.OncePerRound` | x64_kenerl/kernel/task64.c:53-68 | between two refills no task is dispatched twice, on any number of cores |
| `SchedulerFairness.ServiceLasts` | x64_kenerl/asm/apic_interrupts.asm:207-219 | from its dispatch until it is charged a task stays on its core, running, with its ticks, whatever the other cores do |
| `SchedulerFairness.FirstCharge` | x64_kenerl/asm/apic_interrupts.asm:167-170 | in every interleaving, the first charge to a task dispatched with n ticks left is by its core and leaves (n - 1) modulo 2^64, and the task is parked exactly when that is zero |
| `SchedulerFairness.ZeroPriorityWrapsIff` | x64_kenerl/asm/apic_interrupts.asm:167-170 | in every interleaving, a task dispatched with a full slice gets a counter above its priority at its first charge if and only if its priority is zero |
| `SchedulerFairness.ZeroPriorityWraps` | x64_kenerl/asm/apic_interrupts.asm:167-170 | an input that fails: one core and one task of priority zero, whose counter is 2^64 - 1 after its first charge |
| `PageBits.Recombine` | x64_kenerl/include/linux/page.h:6-8 | the three indices and the 21-bit offset recombine to the low 48 bits of the address |
| `PageBits.IndicesNamePage` | x64_kenerl/kernel/ioremap.c:12-17 | two addresses have the same three indices if and only if they agree on bits 21 to 47 |
| `PageBits.IndicesDetermine` | x64_kenerl/include/linux/page.h:6-8 | a 48-bit address is determined by its indices and its offset |
| `PageBits.EntryAddrRecovers` | x64_kenerl/include/linux/page.h:5 | the entry-address macro gives back the page from any page-aligned 52-bit address combined with low flag bits |
| `PageBits.IdentityIff` | x64_kenerl/kernel/ioremap.c:41 | a leaf for address a sends a 48-bit address of its page to itself if and only if bits 48 to 51 of a are clear |
| `PageTables.PlaceIff` | x64_kenerl/kernel/ioremap.c:27-35 | an entry above the leaves is set if and only if there is a table at the place below it |
| `PageTables.OnePlace` | x64_kenerl/kernel/ioremap.c:27-40 | no two table pages stand at the same place of the tree |
| `PageTables.NoSharing` | x64_kenerl/kernel/ioremap.c:27-40 | two entries that lead to the same table page are the same entry |
| `PageTables.AddTableTree` | x64_kenerl/kernel/ioremap.c:28-39 | hanging a zeroed page under a clear entry keeps the tables a tree |
| `PageTables.AddTableWalk` | x64_kenerl/kernel/ioremap.c:28-39 | a fresh zeroed table changes the translation of no address |
| `PageMapper.SetLeafWalk` | x64_kenerl/kernel/ioremap.c:40-41 | writing a leaf changes the translation of exactly the addresses of its 2 MB page |
| `PageMapper.PageKeeps` | x64_kenerl/kernel/ioremap.c:25-41 | on tables at their own addresses, with a free page for each missing table, mapping a page keeps the tree, adds exactly the missing places and takes exactly that many pages |
| `PageMapper.MapPageWalk` | x64_kenerl/kernel/ioremap.c:25-41 | on such tables one turn of the loop sends exactly the addresses of the page to its frame |
| `MapperCode.PageRuns` | x64_kenerl/kernel/ioremap.c:25-41 | with the tables and the pages it takes translated to themselves, a turn of the loop, every load and store going through the translation, does what the step on tables does, whatever get_free_page answers later |
| `MapperCode.PageFaultIff` | x64_kenerl/kernel/ioremap.c:27-41 | where every translated address is its own, a turn of the loop faults if and only if a page it takes is not translated |
| `MapperCode.ReachableIff` | x64_kenerl/kernel/ioremap.c:41 | mapping a page leaves the tables and the pages to come where the code writes them if and only if bits 48 to 51 of its address are clear, or none of them lies in it |
| `MapperCode.RangeIff` | x64_kenerl/kernel/ioremap.c:28-39 | from reachable tables, below 2^48, whatever get_free_page answers after its first NULL: the loop ends without a fault and without page 0 as a table if and only if there is a free page for every place of the range that has no table yet |
| `PageMapper.TwoPerPageSuffice` | x64_kenerl/kernel/ioremap.c:28-39 | two free pages for each 2 MB page are always enough |
| `MapperCode.RangeRuns` | x64_kenerl/kernel/ioremap.c:19-46 | with enough reachable pages the loop runs to its end, does what the steps on tables do for all n pages, and leaves everything reachable |
| `MapperCode.RangeIsIdentity` | x64_kenerl/kernel/ioremap.c:19-46 | with enough reachable pages a range below 2^48 is mapped to itself, all n pages of it, every other address translates as before, and the tables stay a reachable tree |
| `MapperCode.LinkClears` | x64_kenerl/kernel/ioremap.c:29-31 | on any memory, a page made a table has all its entries clear whatever it held before, but for the link itself where that is stored in it |
| `PageMapper.PageIdentityIff` | x64_kenerl/kernel/ioremap.c:41 | mapping a page keeps the identity if and only if bits 48 to 51 of its address are clear |
| `Ioremap.BootIsTree` | x86_kernel/init/main.c:34-61 | the boot tables form a tree |
| `Ioremap.BootWalk` | x86_kernel/init/main.c:57-61 | after boot exactly the first 32 MB are translated, each address to itself |
| `Ioremap.BootReachable` | x86_kernel/init/main.c:34-61 | after boot the tables, page 0 and any page below 32 MB are reachable |
| `Ioremap.ServeIff` | x64_kenerl/kernel/ioremap.c:19-46 | over any run of requests below 2^48: no fault and no table in page 0 if and only if there is a page for every table that the run lacks |
| `Ioremap.IdentityFromBoot` | x64_kenerl/kernel/ioremap.c:19-46 | from boot over any run of requests below 2^48, with pages below 32 MB and then NULL from get_free_page: no fault and no table in page 0 exactly when there are pages for the tables the run lacks; then the tables are a tree, and exactly the first 32 MB and all the pages requested are translated, each address to itself |
| `PageRights.RangeRights` | x64_kenerl/kernel/ioremap.c:28-41 | the pages of a range are for the kernel alone and written through, every other page keeps its rights, and all tables go on to allow writing |
| `PageRights.RightsFromBoot` | x64_kenerl/kernel/ioremap.c:19-46 | from boot over any run of requests with enough pages: whatever is translated can be written, the pages requested are for the kernel alone and written through, and the rest of the first 32 MB can be used by user code and is cached |
| `Ioremap.UnreachableFaults` | x64_kenerl/kernel/ioremap.c:29-31 | a page that is not translated faults when it is to become a table |
| `Ioremap.HighPageMovesTables` | x64_kenerl/kernel/ioremap.c:41 | an input that fails: after the page at 2^48 the root table is no longer where the code writes it |
| `Ioremap.ReuseLoses` | x64_kenerl/kernel/ioremap.c:28-41 | with no page left page 0 becomes the upper table; if the next answer is a table in use, every translation through that table is lost |
| `PagePool.PoolFromAllocator` | x64_kenerl/kernel/phymm.c:70-77 | the pages that get_free_page answers at boot, while the bitmap covers at most 4 GB, are distinct, aligned, not NULL and not the boot tables |
| `PagePool.BelowBoot` | x64_kenerl/kernel/phymm.c:76 | a page lies below 32 MB if and only if its number is below 7424 |
| `PagePool.AllMapped` | x64_kenerl/kernel/ioremap.c:19-46 | two free pages below 32 MB for each 2 MB requested since boot are enough, whatever get_free_page answers later: no fault, and exactly the first 32 MB and the pages requested are translated, each address to itself |
| `PagePool.FreePagesIff` | x64_kenerl/kernel/phymm.c:70-77 | with all pages below 32 MB, a run of requests since boot ends without a fault and without page 0 as a table if and only if there are as many free pages as it lacks tables |
| `PagePool.FirstTableFaults` | x64_kenerl/kernel/ioremap.c:29-31 | an input that fails: with every page below 32 MB taken, the first table faults |
| `PagePool.TableHandedOutTwice` | x64_kenerl/kernel/ioremap.c:28-41 | an input that fails: with two pages in the allocator a first mapping is made, the second takes page 0 and with it the bits of both pages, is given the first table again, and the first mapping is gone |
| `Ioremap.Mapper.constructor` | x86_kernel/init/main.c:34-61 | the loop leaves the boot tables |
| `Ioremap.Mapper.MapOne` | x64_kenerl/kernel/ioremap.c:25-41 | on any memory and whatever get_free_page answers, one turn of the loop with every access translated: a fault exactly when one is not, else memory exactly as the step says |
| `Ioremap.Mapper.IoremapNocache` | x64_kenerl/kernel/ioremap.c:19-46 | the same for the whole loop and any count, and the given address is returned |
| `WaitPost.NextKeeps` | netstack/thread/thread.cpp:83-123 | every step of every thread, and every spurious wake-up, keeps the protocol invariant |
| `WaitPost.NoLostWakeUp` | netstack/thread/thread.cpp:83-123 | over any number of threads and interleavings: a thread is registered with at most one other and never while posted, a thread asleep and posted has its poster at the broadcast, holding the mutex, and every thread has been posted once for each wait it has completed and once more while it is marked |
| `WaitPost.WaiterIsOneOfThree` | netstack/thread/thread.cpp:90-120 | a waiter in its loop is registered, just taken out by its poster, or posted: exactly one |
| `WaitPost.PostedStep` | netstack/thread/thread.cpp:91-96 | until it returns a posted thread stays marked, and no step of anybody takes it further from its return |
| `WaitPost.PostedReturns` | netstack/thread/thread.cpp:91-96 | in every interleaving a posted thread returns within five moves of its own |
| `PostDelivers.WaitRegisters` | netstack/thread/thread.cpp:83-91 | in every interleaving a wait, given three turns, is in its loop, registered with the thread it waits for, not marked, and holding that mutex |
| `PostDelivers.PostDelivers` | netstack/thread/thread.cpp:108-123 | in every interleaving a post, given five turns, returns; a thread registered with the poster at the look-up is taken out, marked, posted exactly once more, and by the return of the post is awake or has returned, and it does return given four turns; if it was not registered, the post changes no registration, no mark and no count |
| `PostDelivers.WokenReturns` | netstack/thread/thread.cpp:91-96 | a thread marked and awake returns within four turns of its own, a turn being one in which the mutex it asks for is free |
| `Checksum.IpChecksum` | netstack/utils/util.cpp:77-95 | the loops compute the complement of the folded 32-bit little-endian word sum, a last odd byte included; a negative length reads nothing |
| `Checksum.TcpChecksum` | netstack/utils/util.cpp:104-154 | the parts, copied together and padded, give the complement of the folded network-order word sum; without memory 0 |
| `Checksum.Fold` | netstack/utils/util.cpp:90-92 | the fold loop ends, with the representative modulo 65535 in 1 .. 65535, or 0 for 0 |
| `Checksum.NoOverflow` | netstack/utils/util.cpp:81-88 | up to 65537 words the 32-bit accumulator holds the exact sum in either byte order |
| `Checksum.ZeroOnlyForZeros` | netstack/utils/util.cpp:81-92 | the sum, and so the folded sum, is zero only for all-zero data |
| `Checksum.SumsByPlace` | netstack/utils/util.cpp:81-142 | for every byte string, a last odd byte included, ip_checksum sums the bytes at even places plus 256 times those at odd places, and tcp_checksum the other way round |
| `Checksum.SumsRelated` | netstack/utils/util.cpp:138-142 | for every byte string 256 times the network-order sum is the little-endian sum plus 65535 times the sum of the leading bytes |
| `Checksum.ByteOrderIff` | netstack/utils/util.cpp:77-149 | for every byte string of any length: the two functions give each other's byte swap if and only if the carries lost above 32 bits match modulo 65535 and neither accumulator wrapped to zero alone |
| `Checksum.ByteOrderIndependence` | netstack/utils/util.cpp:77-149 | for every byte string of up to 65537 words, even or odd, the two functions give each other's byte swap |
| `Checksum.OneWordTooMany` | netstack/utils/util.cpp:139-142 | a string of 65538 words on which the two functions disagree |
| `Checksum.SameBytes` | netstack/protocol/tcp.cpp:32-35 | the native store of one and the network-order store of the other put down the same two bytes |
| `Checksum.FilledVerifies` | netstack/protocol/ip.cpp:42-46 | data with its checksum stored natively in a field at even distance checksums to 0, whatever precedes and follows |
| `Checksum.FilledVerifiesBe` | netstack/protocol/tcp.cpp:29-35 | the same for the network-order checksum stored in network order |
| `Checksum.OneWordChanged` | netstack/utils/util.cpp:77-95 | of data that verifies, replacing one aligned word still verifies if and only if the word is the same, or one is 0x0000 and the other 0xffff and some other byte is not zero |
| `PacketHeaders.CreateIpHeader` | netstack/protocol/ip.cpp:30-49 | read from the 20 bytes at their places: version and length 0x45, service, total length as the bytes lie, identification, flags, time to live, protocol and both addresses as given; the checksum is in place, and the whole header verifies in both byte orders |
| `PacketHeaders.UdpChecksum` | netstack/protocol/udp.cpp:12-30 | the checksum of pseudo-header, header and data as one byte string |
| `PacketHeaders.CreateUdpHeader` | netstack/protocol/udp.cpp:35-72 | read from the bytes at their places: both ports and the length in network order, then the data; with its pseudo-header the datagram verifies in both byte orders; the data fits the buffer if and only if it has at most 65527 bytes |
| `PacketHeaders.CreateTcpHeader` | netstack/protocol/tcp.cpp:13-38 | read from the 20 bytes at their places: ports, sequence and acknowledgement number in network order, the offset that counts 20 and the options in words where it fits, flags, window 0xfaf0, urgent pointer 0; pseudo-header, header, options and data together verify in both byte orders for up to 65537 words |
| `PacketHeaders.TcpFields` | netstack/protocol/tcp.cpp:21-28 | the fields that a reader takes from the front of the TCP header, at their places |
| `PacketHeaders.PseudoFields` | netstack/protocol/tcp.cpp:14-19 | the 12 bytes before both: local address, remote address, 0, protocol, length in network order |
| `PacketHeaders.BuildersAgree` | netstack/protocol/udp.cpp:12-30 | for the same input the UDP way and the TCP way of summing and storing leave identical bytes |
| `NumberFormat.DigitsRead` | x64_kenerl/libs/vsprintf.c:58-62 | for every number and base the digit run reads back as the number, has only digits of the base, and no leading zero unless it is just 0 |
| `NumberFormat.DigitsOnly` | x64_kenerl/libs/vsprintf.c:58-62 | every canonical digit run is what is produced for its value, so the run is unique |
| `NumberFormat.FillTmp` | x64_kenerl/libs/vsprintf.c:58-62 | the digits are stored least significant first, at most 32 of the 36 places are used, in every base and for every pattern |
| `NumberFormat.DoDiv` | x64_kenerl/libs/vsprintf.c:31-34 | quotient and remainder of the pattern read as unsigned |
| `NumberFormat.Layout` | x64_kenerl/libs/vsprintf.c:47-86 | the output length is max(width, sign + prefix + max(precision, digits)) |
| `NumberFormat.WidthIff` | x64_kenerl/libs/vsprintf.c:53-86 | what is written in 32-bit arithmetic is that layout if and only if what the width leaves stays above the smallest int by as much as the loops count down, or wraps to nothing |
| `NumberFormat.WidthFits` | x64_kenerl/libs/vsprintf.c:53-86 | so for every width from -1 up and precision up to 2^31 - 16 |
| `NumberFormat.SmallestWidth` | x64_kenerl/libs/vsprintf.c:53-86 | an input that fails: the smallest int as a width |
| `NumberFormat.Number` | x64_kenerl/libs/vsprintf.c:36-88 | outside bases 2 to 36 nothing is written; otherwise exactly the 32-bit layout is written at the position, wrapped counts included, the rest of the buffer stays, and the end is returned |
| `NumberFormat.ReadsBack` | x64_kenerl/libs/vsprintf.c:36-88 | whatever the base, width, precision and flags, the text written reads back as the number when signed (the most negative one included) and as the unsigned pattern otherwise |
| `NumberFormat.Text` | x64_kenerl/libs/vsprintf.c:41-86 | the text from the first character to the last: blanks only to fill the width, on the left or on the right as asked; '-', '+', ' ' or no sign; "0x", "0X", "0" or no prefix; then digits of the base in the case asked for, as many as the precision at least, with zeros in front only up to the precision or, where zeros are asked for, the width |
| `NumberFormat.LetterCase` | x64_kenerl/libs/vsprintf.c:40-43 | with small letters asked for there is no letter from A to Z in the text, prefix included, and without none from a to z |
| `NumberFormat.SkipAtoi` | x64_kenerl/libs/vsprintf.c:14-21 | it stops after the longest run of digits and returns the value of that run wrapped to 32 bits, however many digits |
| `NumberFormat.AtoiInverts` | x64_kenerl/libs/vsprintf.c:14-21 | it inverts plain decimal output for 0 .. 2^31 - 1, and for every pattern written unsigned |
| `RingList.Node.constructor` | components/include/list.h:127-131 | an initialised node is a ring of its own |
| `RingList.RingUnique` | components/include/list.h:133-141 | the heap determines the sequence of a ring from its first node |
| `RingList.Rotate` | components/include/list.h:133-141 | a ring can be read from any of its nodes |
| `RingList.ListEmpty` | components/include/list.h:234-238 | true if and only if the sequence is empty |
| `RingList.AddBetween` | components/include/list.h:133-141 | the four stores put the entry between two neighbours at any place of the ring |
| `RingList.ListAdd` | components/include/list.h:158-162 | the entry is prepended to that list, and every other list of the heap stays |
| `RingList.ListAddTail` | components/include/list.h:179-183 | the entry is appended to that list, and every other list of the heap stays |
| `RingList.ListDel` | components/include/list.h:185-210 | an element leaves its list and every other list stays; a head taken out keeps its links, its elements close up to a ring of their own, and it is empty only if it was |
| `RingList.ListDelInit` | components/include/list.h:212-217 | exactly the one element leaves its list and heads an empty one, every other list stays |
| `RingList.ListMoveTail` | components/include/list.h:219-224 | the element leaves its list and is appended to the given one, the same or another |
| `RingList.ListsUnique` | components/include/list.h:127-141 | the heap determines all lists from their heads |
| `RingList.AddThenRemove` | components/include/list.h:212-217 | list_del_init undoes list_add and list_add_tail |
| `RingList.MovePermutes` | components/include/list.h:219-224 | moving to the tail of the same list permutes it, puts the element last and keeps the order of the others |
| `RingList.MoveConserves` | components/include/list.h:219-224 | moving to another list conserves the elements of the two together |

## Left out

- Free-block link width: the code stores 4 bytes and loads 8 (x64_kenerl/mm/malloc.c:104, 114, 155); the model has one cell.
- BucketTheorems.MallocKeeps: on the abstract heap a call without a page for descriptors changes nothing; what it does to memory is stated for the code by KMalloc, and runs with such a call are not legal.
- BucketTheorems.EveryRunIsSafe: calls are atomic (they hold the allocator's spin lock from start to end), and pages are below 4 GB.
- The bitmap's length is a parameter: x64_kenerl/kernel/phymm.c:64 passes a number of pages as a number of bytes, so nothing says that pages lie within RAM.
- Reading memory through stale or foreign pointers: a free of a block that is not live is outside the runs considered.
- SmpScheduler.StepKeeps: a selection is one step; that selections slot by slot, with creations in between, come to the same is SelectionSteps.SlotBySlotIsOneStep.
- SelectionSteps.NeverOnTwoCores: a task is stored in a slot that is still empty, so two creators that found the same slot (x64_kenerl/kernel/task64.c:126, 188-189), and a full table, are outside the runs.
- Task exit and `task_clean`: the exit path selects without the lock, and the task is read after it is freed; neither is part of this model.
- Stack switching, saved registers, the first-scheduling flag and interrupt acknowledgement: ownership of tasks is modelled, not of stacks.
- SchedulerFairness.ProportionalShare: one core, as the shares are of one core's ticks; sleeping, blocked and dead tasks do not occur in the runs.
- SchedulerLedger.LedgerKeeps: priorities are from 1 to 2^64 - 1; what priority zero does is ZeroPriorityWrapsIff.
- PagePool.FreePagesIff: past the first NULL the answers are arbitrary here; in Answers each NULL is followed by the zeroing of page 0, and entries stored in page 0 from index 160 on, which set bits again, are not carried over to the bitmap.
- Ioremap.Mapper.IoremapNocache: after a fault nothing is promised, since the handler does not return to the loop.
- `ioremap_nocache` passes a count of 1 for every size but zero because of operator precedence (x64_kenerl/kernel/ioremap.c:57); properties are stated on the mapping function itself.
- MapperCode.PageRuns: 1 GB and 4 KB pages and the TLB are not part of the walk, the tables hold none of those pages; a store by the kernel is not stopped by the rights of a page, which all allow writing.
- PostDelivers.PostDelivers: counts turns, steps in which the mutex asked for is free; that a thread is given the mutex and the processor is fairness, which is not modelled, nor are waits for unknown names.
- SchedulerProgress.TimerHandler: counts turns, steps in which a core at the lock finds it free; that the exchange lets every core in some time is fairness, which is not modelled.
- PacketHeaders.CreateUdpHeader: with more than 65527 bytes the copy past the buffer is reported, not carried out; allocation succeeds. A checksum that comes out as 0 is sent as 0, as the code does.
- PacketHeaders.CreateIpHeader: allocation succeeds; the two other IPv4 builders (netstack/protocol/ip.cpp:10-28, netstack/protocol/tcp.cpp:40-57) differ only in fixed fields.
- Checksum.TcpChecksum: for odd lengths the code pads one byte past its buffer (netstack/utils/util.cpp:133-136); the model's buffer has room for it.
- NumberFormat.Number: the caller's buffer has room for the output.
- NumberFormat.AtoiInverts: output without width, precision or plus and blank signs; the main loop of vsprintf is not modelled.
- RingList.ListMoveTail: the node moved is an element, not a head.
- The 32-bit scheduler, the TCP state machine and sequence numbers, ARP and ICMP, device drivers, ACPI and APIC set-up, descriptor tables, console, keyboard, system calls and logging.
