# CortexForge: a verified model

CortexForge is a small AArch64 kernel written in C. This project models the data
structures and protocols its correctness rests on, and proves what they keep over
whole runs:

- the split virtqueue and the block requests sent through it;
- the memory stack: frame allocator, page tables, kernel heap, ELF loader;
- the fixed-priority scheduler and its priority-inheritance mutexes;
- FAT32 create, lookup and read;
- the stuffed, checksummed serial framing;
- signal delivery and return.

`dafny verify dfyconfig.toml` checks all of it.

## How it is laid out

Each component comes in two layers. Functions on values say what an operation does;
the lemmas about them are the theorems. A class holds the state the C code updates in
place (arrays, link fields, counters, disk sectors), and its methods are proved equal
to those functions, loops and all. So a theorem about every run of the functions is a
theorem about every run of the methods.

| files | component |
|---|---|
| `Common`, `Arith`, `Bits`, `Words`, `Links` | types, counting, bitwise, byte-order and linked-list facts the others share |
| `Virtqueue`, `VirtqueueRuns`, `SharedQueue` | split virtqueue: values, runs, shared memory |
| `Blk`, `BlkRetry`, `BlkDevice`, `BlkServed` | cutting a transfer into requests; timeout, reset and retry; what the device makes of a chain; the data under the policy |
| `Pmm` | frame allocator |
| `PageTables`, `Mmu` | entry arithmetic and the table tree; the operations on it |
| `Heap`, `HeapRuns`, `KernelHeap` | kernel heap: values, runs, headers in memory |
| `Elf`, `ElfLoader`, `ElfFile`, `ElfCases` | segments and permissions; the loader over allocator and tables; the file as bytes; loads that lose bytes |
| `Sched`, `RunQueue` | scheduler: values and runs; linked run queue |
| `Rtos`, `RtosRuns`, `RtMutex`, `RtSystem` | mutexes: one step, runs, linked wait queues; scheduler and mutexes as one machine |
| `Fat32`, `Fat32Files`, `FatVolume`, `FatCases` | table and chains; directories and files; sectors in place; a file from creation to reading |
| `Crc16`, `Framing`, `FramingStream`, `FramingLink` | checksum; one frame; byte streams; buffers |
| `Signal`, `SignalMasks`, `SignalTask` | frames and nesting; pending masks; the state of one user process |

The device is a nondeterministic step that fetches offered heads and publishes any
head it holds once; interrupts come between any two of its steps. With data, it knows
nothing but rings, descriptor table and memory: it walks the chain, reads the header
there, and moves bytes when it publishes. Lock, unlock, schedule, kill and create are
atomic steps. What the page allocator or a table read answers is a parameter where the
caller cannot see it. Fixed-width arithmetic is written out wherever it can wrap.

## What turned out not to hold

Each of these is stated exactly, with the condition a caller could check and an input
where the plain property fails.

- *No submission overwrites the available slot of an outstanding chain.* It does exactly
  when more than `size` submissions have been made from that chain's own on, which
  out-of-order completion allows (`SlotReusedIff`, `SlotReuseHappens`). Slots the device
  has not fetched are safe.
- *A request the device completed is waited for with success.* Exactly when it is timely:
  polling, it has come back by the last look; by interrupt, it is still outstanding when the
  wait reads its target and has been reaped by the last look (`WaitEnds`). A timeout leaves
  the queue quiet exactly when the interrupt came before the target was read, and that can
  happen on every quiet queue (`EarlyReapHappens`, `EarlyReapAtStart`).
- *A request's chain carries all its sectors.* Exactly when they are fewer than 4 GiB, as the
  byte count has 32 bits (`BuildChain`); the limits a device may offer allow more
  (`HugeRequestEmpty`).
- *A frame that breaks off does not cost the next one.* It does exactly when the part
  that arrived ends in a START byte, whatever comes behind (`NextFrameIff`).
- *Only encodings decode.* A frame with a full payload, and no other, also decodes with
  anything behind it (`DecodesIff`, `TrailingDecodes`).
- *A contended lock leaves every owner at least as high as its waiters.* Exactly when
  at most eight owners had to be raised (`ContendIff`, `TowerIff`); locks alone lead to
  more (`TowerBuiltIff`).
- *An unlock keeps inheritance.* Exactly when no other mutex of the caller has a waiter
  above the caller's base priority and no waiter left behind outranks the new owner
  (`UnlockIff`, `NestedUnlockDrops`); three locks lead to such a state
  (`NestedUnlockHappens`). The code documents that it leaves nested mutexes out.
- *When no block fits and the heap can grow, a request is served.* Not when size,
  header and page rounding exceed 64 bits: the sum wraps and the heap grows for nothing
  (`ServedAfterGrowthIff`, `HugeRequestGrowsLittle`).
- *A file that was created is found.* Exactly when its name does not start with byte 0xE5
  (`FoundIff`, `FatCases.LostHappens`).
- *A create that reports success has written the file.* Exactly when the 32-bit rounding
  of its length does not overflow and what belongs behind a failed table read was on the
  disk already (`CreateEnds`; `WrapHappens` and `FaultHappens` are creates that have not).
- *A create that is refused takes no cluster.* It keeps as many as it needed, up to every
  free one, and is refused exactly when it needs more than there are or the directory has no
  slot (`CreateEnds`, `RefusedKeeps`; `FatCases.RefusedHappens` leaves a volume without one).
- *An allocated cluster is one of the volume's.* Not when no cluster is free and the table
  has unmarked entries behind the last of them (`StrayIff`, `FatCases.StrayHappens`).
- *An address that can be freed is a frame's.* Exactly when the region is made of whole pages
  (`PassesIff`, `PartPagePasses`).
- *Every byte of a loaded segment is visible.* Where two segments share a page the later
  one owns it (`SharedByteIff`, `ElfCases.SharedPageLoses`). Otherwise exactly when there
  were frames for the pages of all segments and for the tables they lacked: a load short of
  table frames for its last segment succeeds with pages missing (`ElfLoader.Loader.Load`,
  `ElfCases.ShortLoadHappens`).
- *A signal frame that passes the check lies in the stack.* Exactly when the interrupted
  stack pointer was at least 288 (`FrameInStackIff`, `WrapAccepted`).
- *A refused sigprocmask changes nothing.* Exactly when it was not refused for a bad
  pointer to the old mask alone, or asked for nothing new
  (`SignalTask.UserTask.Sigprocmask`, `GrantedIff`, `RefusedBlocks`).

## Model

| member | source | states |
|---|---|---|
| VirtqueueRuns.EveryRun | src/pci/virtio/virtqueue.c:25-265 | from set-up, for every interleaving of submissions, device fetches, completions in any order and reaping: each descriptor is free or in exactly one outstanding chain, the free list is threaded through the table and counted by `num_free`, outstanding chains still hold the segments they were submitted with, and once all is reaped `num_free == size` |
| VirtqueueRuns.RunAgrees | src/pci/virtio/virtqueue.c:147-265 | 16-bit counters, rings and threaded list give the same answers for ever as a machine with unbounded logs and plain lists |
| VirtqueueRuns.SetupAgrees | src/pci/virtio/virtqueue.c:76-145 | a queue just set up, over whatever the descriptor memory held, agrees with the empty ledger |
| VirtqueueRuns.SubmitChainInv | src/pci/virtio/virtqueue.c:229-265 | a chain takes the first free descriptors in order and becomes outstanding; with too few free, nothing changes |
| VirtqueueRuns.SubmitIsChain | src/pci/virtio/virtqueue.c:147-168 | a single submission is a chain of one with the continuation bit cleared |
| VirtqueueRuns.LinkIs | src/pci/virtio/virtqueue.c:229-265 | each descriptor of a chain holds its segment, and each but the last leads on by flag 1 and the index of the next |
| VirtqueueRuns.ReapInv | src/pci/virtio/virtqueue.c:183-210 | completions are reported once each, in the order the device published them, and free exactly their chain |
| VirtqueueRuns.StrayEntry | src/pci/virtio/virtqueue.c:183-210 | a used entry that names no descriptor is passed over and nothing is freed |
| VirtqueueRuns.TakeInv | src/pci/virtio/virtqueue.c:160-165 | what the device reads from the ring is the next head that was offered, across wraps |
| VirtqueueRuns.PublishInv | src/pci/virtio/virtqueue.c:183-210 | publishing any head the device holds, in any order, keeps rings and ledger in agreement |
| VirtqueueRuns.FreeChainIs | src/pci/virtio/virtqueue.c:45-74 | freeing a chain pushes its descriptors in turn and touches no other |
| VirtqueueRuns.NoLiveReuse | src/pci/virtio/virtqueue.c:34-42 | no submission is handed a descriptor of an outstanding chain |
| VirtqueueRuns.WrapAgreesIff | src/pci/virtio/virtqueue.c:160-165 | wrapping counters pick the same slots as unbounded ones exactly when the size divides 65536 |
| VirtqueueRuns.SlotReusedIff | src/pci/virtio/virtqueue.c:257-262 | after any run from set-up, the ring slot an outstanding chain was offered in holds something else exactly when more than `size` submissions have been made from its own on |
| VirtqueueRuns.SlotReuseHappens | src/pci/virtio/virtqueue.c:257-262 | seven steps from set-up on a queue of two after which the ring has lost a live head |
| VirtqueueRuns.TrailingStep | src/pci/virtio/virtqueue.c:147-265 | every step keeps the last `size` submissions in the ring, and no head of an outstanding chain is offered again |
| SharedQueue.Driver.Setup | src/pci/virtio/virtqueue.c:76-145 | negotiated size, cleared rings and threaded list, in the arrays; refuses a device maximum of zero and changes nothing |
| SharedQueue.Driver.InitFreeList | src/pci/virtio/virtqueue.c:25-31 | the loop threads every descriptor onto the list |
| SharedQueue.Driver.AllocDesc | src/pci/virtio/virtqueue.c:34-42 | pops the head, or reports that there is none |
| SharedQueue.Driver.FreeChain | src/pci/virtio/virtqueue.c:45-74 | the walk ends on any table, broken links included, and equals the specification |
| SharedQueue.Driver.Submit | src/pci/virtio/virtqueue.c:147-168 | array form of the single submission |
| SharedQueue.Driver.SubmitChain | src/pci/virtio/virtqueue.c:229-265 | array form of the chain submission, both loops |
| SharedQueue.Driver.GetUsed | src/pci/virtio/virtqueue.c:183-210 | array form of reaping |
| Blk.TransferExact | src/pci/virtio/blk/blk.c:371-535 | when the device has served all requests of a transfer, acting on the segments each one's own chain hands it, a read has filled the buffer with exactly the sectors asked for and a write has done the same to the disk; nothing else changes but the status byte |
| BlkServed.CarryExact | src/pci/virtio/blk/blk.c:293-535 | a whole transfer over the queue, request by request, each with its own attempts, device moves, interrupts, failures and resets: it succeeds exactly when every request has an attempt that fits, is on time and does not fail, all before it timed out and reset; then the sectors are in the buffer or the buffer in the sectors and nothing else changed but header and status byte; failure means nothing changed but those and the buffer of a read or the sectors of a write; the queue ends quiet or the device uninitialised |
| BlkServed.RetryServes | src/pci/virtio/blk/blk.c:444-487 | one request under the policy: its answer is that of the first attempt that does not time out, no device if a reset failed before, a timeout if all of them timed out; success exactly when that attempt fits the queue, is on time and does not fail, and it leaves the data as if served once, however many attempts the device carried out before, also late ones between timeout and reset; any return leaves all but the request's own places alone |
| BlkServed.RetryDecides | src/pci/virtio/blk/blk.c:444-487 | which attempt decides, and so which answer is returned, from the device's moves alone |
| BlkServed.OnceServes | src/pci/virtio/blk/blk.c:371-428 | what one attempt answers: no space when the chain is longer than the queue, a timeout when it is late, an I/O error when the device fails it, else success, and then the request has been served |
| BlkServed.WaitServes | src/pci/virtio/blk/blk.c:293-316 | through a wait in either mode the request acts on the data once or not at all, and if the wait succeeds it has |
| BlkServed.ChainFound | src/pci/virtio/virtqueue.c:229-265 | walking the table from the head of an outstanding chain finds the segments that were submitted, flags included |
| BlkServed.PublishOnce | src/pci/virtio/virtqueue.c:183-210 | with one request outstanding only that one can be published, once, and the table stays |
| BlkServed.CarryAnswers | src/pci/virtio/blk/blk.c:518-534 | the loop that stops at the first failure returns what the transfer returns |
| BlkDevice.Obeys | src/pci/virtio/blk/blk.c:371-412 | a device that takes operation and sector from the header bytes and lengths from the chain does what the driver meant |
| BlkDevice.NearServes | src/pci/virtio/blk/blk.c:371-412 | serving a request leaves the same data whatever was in the places it works on, so serving it again changes nothing |
| Blk.ServeReads | src/pci/virtio/blk/blk.c:371-412 | a served read lays its sectors into its own part of the buffer, sets the status, and touches nothing else |
| Blk.ServeWrites | src/pci/virtio/blk/blk.c:371-412 | a served write lays its part of the buffer into its sectors and touches nothing else |
| Blk.RequestsTile | src/pci/virtio/blk/blk.c:518-534 | sector ranges and buffer addresses of the requests each follow on without gap, every request within the maximum |
| Blk.Rw | src/pci/virtio/blk/blk.c:489-535 | the checks in order; the requests issued, each with sector, buffer address and count, are a prefix of the cut of the range, stopping at the first failure, never beyond capacity; on success they are all of it and serving them makes the transfer exact; says when one of them reaches 4 GiB |
| Blk.Issue | src/pci/virtio/blk/blk.c:518-534 | the chunking loop, with the sector, buffer address and count of each request |
| Blk.CutTiles | src/pci/virtio/blk/blk.c:518-534 | the pieces follow each other without gap or overlap, each non-empty and at most the maximum |
| Blk.CutCount | src/pci/virtio/blk/blk.c:371-412 | a range of at most k maxima is cut into at most k pieces |
| Blk.ChainFits | src/pci/virtio/blk/blk.c:371-412 | header, data and status stay within the device's segment limit, the 128-entry array and the segment size limit |
| Blk.ChainFitsIff | src/pci/virtio/blk/blk.c:371-516 | a request stays within segment limit and 128-entry array exactly when it has at most the maximal number of sectors, so the maximum is the largest there could be |
| Blk.RequestIs | src/pci/virtio/blk/blk.c:371-412 | a 16-byte header to read, data the device writes exactly for a read, and one status byte it writes |
| Blk.Clamp | src/pci/virtio/blk/blk.c:131-138 | a segment limit under 3 becomes 3, a size limit under 512 becomes 512, and any other is kept |
| Blk.MaxSectorsFit | src/pci/virtio/blk/blk.c:509-516 | the 32-bit truncation of the request size never bites and a full request fits its segments |
| Blk.BuildChain | src/pci/virtio/blk/blk.c:371-412 | the loop that fills the segment array builds header, tiled data and status, for the sectors asked for exactly when they are below 4 GiB |
| Blk.HugeRequestEmpty | src/pci/virtio/blk/blk.c:371-412 | limits under which a request of 4 GiB is made, and its chain carries no byte of it |
| BlkRetry.SubmitRetryEnds | src/pci/virtio/blk/blk.c:444-487 | from a queue with nothing outstanding, each attempt polling or by interrupt, the answer is that of the attempt that decides; every return leaves all descriptors free or the device uninitialised; timeouts and resets pair up; running out of attempts means exactly that many timeouts and resets and one fewer counted retries |
| BlkRetry.SubmitRetryAnswers | src/pci/virtio/blk/blk.c:444-487 | which answer is returned, I/O error and lack of space included, after how many timeouts and retries, given by the chain, the timing of each attempt, the status byte and the resets |
| BlkRetry.RetryEnds | src/pci/virtio/blk/blk.c:444-487 | the same policy over any attempt and any reset: what every return leaves, whichever answer `BlkRetry.RetryAnswers` gives |
| BlkRetry.RetryAnswers | src/pci/virtio/blk/blk.c:444-487 | over any attempt and reset: the first attempt that does not time out decides, a failed reset means no device, and when all time out so does the request; the counters for each |
| BlkRetry.AnsweredOnce | src/pci/virtio/blk/blk.c:444-487 | there is only one such answer |
| BlkRetry.RetryCounts | src/pci/virtio/blk/blk.c:444-487 | the counters of the policy |
| BlkRetry.OnceEnds | src/pci/virtio/blk/blk.c:371-428 | what one attempt answers, polling or by interrupt: no space exactly when the chain is longer than the queue, else a timeout, an I/O error or success by timing and status; it ends with the queue quiet unless it timed out |
| BlkRetry.WaitEnds | src/pci/virtio/blk/blk.c:293-316 | whatever the device and the interrupts do, a wait succeeds exactly when the request comes back in time, in either mode, and then leaves nothing outstanding; one that times out leaves the queue quiet exactly when the request was reaped before the target was read, and else pending |
| BlkRetry.DueIff | src/pci/virtio/blk/blk.c:296-305 | a completion count k past the target, wrapped to 32 bits, counts as reached exactly for k below 2^31 |
| BlkRetry.WaitsInVain | src/pci/virtio/blk/blk.c:296-305 | a request reaped before the wait reads its target is waited for in vain, however long |
| BlkRetry.EarlyReapHappens | src/pci/virtio/blk/blk.c:293-428 | on every quiet queue: served and reaped between doorbell and wait, a request times out with the queue quiet |
| BlkRetry.EarlyReapAtStart | src/pci/virtio/blk/blk.c:293-428 | the same from set-up on a queue of two, with a request of one segment |
| BlkRetry.DrainEnds | src/pci/virtio/blk/blk.c:225-233 | the interrupt handler reaps the outstanding request and counts it once, or finds nothing |
| BlkRetry.ReapEnds | src/pci/virtio/virtqueue.c:183-210 | with one request outstanding, reaping returns that request and leaves the queue quiet, or returns nothing and leaves it pending |
| BlkRetry.RebuiltQuiet | src/pci/virtio/blk/blk.c:320-343 | a reset that succeeds leaves a queue with every descriptor free |
| Pmm.Allocator.constructor | src/mm/pmm/pmm.c:45-96 | exactly the frames up to the end of the bitmap behind the kernel start out taken, no frame more; the bits past the last frame are set |
| Pmm.Allocator.AllocatePage | src/mm/pmm/pmm.c:103-132 | the lowest free frame, or 0 exactly when none is free; `used_pages` counts the set bits |
| Pmm.Allocator.AllocatePages | src/mm/pmm/pmm.c:134-170 | the lowest run of that many free frames, or 0 exactly when there is none |
| Pmm.Allocator.FindRun | src/mm/pmm/pmm.c:134-170 | the run scan finds the first run or there is none |
| Pmm.Allocator.FreePage | src/mm/pmm/pmm.c:184-212 | releases that frame; foreign, unaligned, reserved or free addresses change nothing |
| Pmm.Allocator.FreePages | src/mm/pmm/pmm.c:172-176 | from any address releases exactly the frames past the reserved ones that start one of its pages |
| Pmm.PassesIff | src/mm/pmm/pmm.c:184-203 | the address checks let through only addresses of frames exactly when the region is made of whole pages |
| Pmm.SetSound | src/mm/pmm/pmm.c:18-20 | setting a bit marks that frame and no other |
| Pmm.ClearSound | src/mm/pmm/pmm.c:22-24 | clearing a bit releases that frame and no other |
| PageTables.SameIndicesIff | src/mm/mmu/mmu.h:43-46 | two addresses share all four indices exactly when they lie on the same page |
| PageTables.Indices | src/mm/mmu/mmu.h:43-46 | the four indices are the 9-bit digits of the address above bit 12 |
| PageTables.TableEntryFacts | src/mm/mmu/mmu.h:79-102 | a table entry is valid, is a table and gives its address back; zero is not valid |
| PageTables.LeafEntryFacts | src/mm/mmu/mmu.c:249-266 | a leaf entry is valid and maps exactly its page when the flags hold no address bit, and every bit of it is address, fixed bit or flag |
| PageTables.LeafBits | src/mm/mmu/mmu.c:249-266 | a leaf entry bit by bit: the address in bits 12 to 47, VALID, TABLE, inner shareable, AF and NG set, and the flags' own bits |
| PageTables.TableBits | src/mm/mmu/mmu.c:340-388 | a table entry bit by bit: the table's address, VALID and TABLE |
| PageTables.TranslateIs | src/mm/mmu/mmu.c:323-388 | the hardware's walk through memory finds the tree's leaf entry |
| PageTables.GrowTree | src/mm/mmu/mmu.c:340-388 | hanging a zeroed frame under a missing child keeps a tree without shared nodes and every translation |
| PageTables.WriteLeaf | src/mm/mmu/mmu.c:249-266 | writing an L3 entry changes one translation and no other |
| Mmu.Tables.MapUserRange | src/mm/mmu/mmu.c:249-266 | page va+i translates to an entry with the address of pa+i, the fixed bits and the flags, bit by bit, for each page mapped, all unless frames run out; every other page translates as before; the tables stay a tree that has grown by exactly the missing tables on the way; frames outside it are untouched |
| Mmu.Tables.WalkLevels | src/mm/mmu/mmu.c:323-388 | reaches the L3 table, adding missing tables and changing no translation; 0 only when no frame is left |
| Mmu.Tables.WalkToL2 | src/mm/mmu/mmu.c:340-388 | reaches the L2 table in the same way, adding no more than the two tables above it |
| Mmu.Tables.AllocTable | src/mm/mmu/mmu.c:9-28 | a zeroed frame that was free, or 0 exactly when none is |
| Mmu.Tables.CreateUserTables | src/mm/mmu/mmu.c:232-247 | a tree of new frames in which page 0x300 leads to the trampoline, readable and executable but not writable from user mode, if there was a frame for it, and no other page leads anywhere; nothing changes without a root frame |
| Mmu.Tables.MapTrampoline | src/mm/mmu/mmu.c:206-247 | the trampoline's page translates to its frame and every other page as before; the frame stays outside the tree and is allocated once |
| Mmu.Tables.FreeUserTables | src/mm/mmu/mmu.c:268-312 | releases each table frame of the tree and no leaf frame |
| Mmu.Tables.FreeSubtree | src/mm/mmu/mmu.c:268-312 | every frame of a subtree is released while it is taken, so none twice |
| Mmu.Tables.Lifecycle | src/mm/mmu/mmu.c:206-312 | create, map any ranges whatever happens to each, free: the allocated set and `used_pages` end where they began, but for a trampoline page |
| HeapRuns.EveryRun | src/mm/heap/heap.c:83-246 | after every run of good and bad calls: blocks tile the regions, used plus free plus 32 bytes a block is the total, the blocks in use are exactly those whose pointers are held, and no two overlap |
| HeapRuns.KmallocInv | src/mm/heap/heap.c:129-189 | kmalloc keeps the tiling, alignment and disjointness, growth included |
| HeapRuns.KfreeInv | src/mm/heap/heap.c:191-246 | so does kfree of any pointer |
| HeapRuns.FreeUndoes | src/mm/heap/heap.c:129-246 | kfree of a kmalloc just made gives the coalesced heap; the identical one exactly when it was coalesced and did not grow |
| HeapRuns.KmallocGives | src/mm/heap/heap.c:129-189 | exactly when the request can be served, a new aligned block of at least the size, apart from all others, which do not move; else nothing, and no block in use changes |
| HeapRuns.KmallocIff | src/mm/heap/heap.c:83-189 | a block is returned exactly when the size is neither zero nor too near 2^64, and a free block fits it or the heap may grow, is granted pages and the page sum stays within 64 bits |
| HeapRuns.KmallocServes | src/mm/heap/heap.c:129-189 | a request that some block fits is served from the first such block, cut in two when more than 64 bytes are over, and the heap does not grow |
| HeapRuns.KmallocGrows | src/mm/heap/heap.c:83-189 | one that no block fits is served from a new region of just enough pages, no fewer than 64 |
| HeapRuns.KmallocCounts | src/mm/heap/heap.c:129-189 | the used bytes grow by the block, the free bytes shrink by it and by the header if one was cut |
| HeapRuns.KfreeTakes | src/mm/heap/heap.c:191-246 | freeing a block takes it and no other out of use |
| HeapRuns.KfreeCounts | src/mm/heap/heap.c:191-246 | the used bytes shrink by exactly the block freed |
| HeapRuns.KfreeRefuses | src/mm/heap/heap.c:191-246 | freeing null, foreign, interior or freed pointers takes nothing out of use, and changes nothing unless the bytes there pass for a header; then the blocks are coalesced |
| HeapRuns.ServedAfterGrowthIff | src/mm/heap/heap.c:83-189 | after growth a request is served exactly when size, header and rounding stay within 64 bits |
| HeapRuns.HugeRequestGrowsLittle | src/mm/heap/heap.c:83-189 | on any heap with a region to spare that is granted pages, the largest accepted request adds the minimal 64 pages and fails |
| Heap.CoalesceSpace | src/mm/heap/heap.c:225-246 | coalescing keeps the space the blocks take up, and their disjointness |
| Heap.CoalesceLive | src/mm/heap/heap.c:225-246 | coalescing leaves every block in use as it was |
| Heap.CoalesceDone | src/mm/heap/heap.c:225-246 | one walk leaves nothing to merge |
| Heap.CoalesceIdleIff | src/mm/heap/heap.c:225-246 | the walk changes nothing exactly when nothing can be merged |
| Heap.BytesSplit | src/mm/heap/heap.c:277-305 | used, free and header bytes add up to the bytes of the blocks |
| KernelHeap.KernelHeap.constructor | src/mm/heap/heap.c:46-76 | one free block over the first 256 pages, or no heap |
| KernelHeap.KernelHeap.Kmalloc | src/mm/heap/heap.c:129-189 | headers and links in memory follow the specification, with frames from the allocator; a pointer is returned exactly when a block fits or there is a region to record, a run of free frames for it and no overflow |
| KernelHeap.KernelHeap.HeapExpand | src/mm/heap/heap.c:83-124 | appends the region's block and records the region; without room for it the block is unlinked and the frames go back |
| KernelHeap.KernelHeap.Cut | src/mm/heap/heap.c:154-175 | splitting in place |
| KernelHeap.KernelHeap.FindFit | src/mm/heap/heap.c:148-179 | the list walk finds the first fit |
| KernelHeap.KernelHeap.InAnyRegion | src/mm/heap/heap.c:36-44 | the region scan |
| KernelHeap.KernelHeap.Kfree | src/mm/heap/heap.c:191-246 | checks in order, header change and walk follow the specification |
| KernelHeap.KernelHeap.CoalesceWalk | src/mm/heap/heap.c:225-246 | the nested walk relinks the list into its coalesced form |
| KernelHeap.KernelHeap.MergeRun | src/mm/heap/heap.c:225-246 | the inner loop ends when nothing can be merged into the block, and loses nothing |
| Elf.FlagsMean | src/syscall/elf.c:67-96 | accepted flags let user code read, write and execute exactly as asked, never write and execute, never let the kernel execute, and hold no address bit |
| Elf.ParsedIff | src/syscall/elf.c:67-96 | flags are accepted exactly when they ask for reading and not for both writing and executing |
| Elf.ParsedBits | src/syscall/elf.c:67-96 | the bits that come out, one by one |
| Elf.LeafEntitles | src/syscall/elf.c:205-237 | the entry written for a page of a segment grants exactly the segment's rights |
| Elf.AcceptedIff | src/syscall/elf.c:171-189 | the 64-bit checks let through exactly the segments that fit the file and the user half, overflow or not |
| Elf.SegmentReads | src/syscall/elf.c:205-237 | a byte of a segment's pages that no later segment took over reads through the tables as the segment's own, with the segment's rights |
| ElfLoader.Loader.Load | src/syscall/elf.c:107-274 | every failure gives back all data frames and has a cause among the checks or a segment for which there was no run of free frames; success means every loadable segment is loaded and the entry lies in an executable one, at most four segments among at most 32 headers, and every byte reads as the file says, with the rights of its segment, exactly when the frames in use before, the pages of all segments and the tables they lacked did not exceed the frames there are; otherwise a page of the last segment translates to nothing |
| ElfFile.LoadFile | src/syscall/elf.c:107-274 | the whole loader on the bytes of a file: one that fails the header checks is refused and nothing changes; any other is loaded by the program headers in it, with all that `ElfLoader.Loader.Load` states |
| ElfFile.FileReadsBack | src/syscall/elf.h:33-59 | entry point and program headers come back from every file they are written to, whatever follows them |
| ElfFile.TablePassesIff | src/syscall/elf.c:153-157 | the wrapping check lets through exactly the tables inside the file and those whose end wraps |
| ElfLoader.Loader.LoadAll | src/syscall/elf.c:164-248 | the header loop: all loadable segments in order, or a reason to stop |
| ElfLoader.Loader.Admit | src/syscall/elf.c:171-241 | the checks of one segment, then its loading |
| ElfLoader.Loader.LoadSegment | src/syscall/elf.c:205-237 | new frames filled and mapped; pages outside the segment translate as before |
| ElfLoader.Loader.Fill | src/syscall/elf.c:217-225 | zeros, then the file bytes at their offset in the first page |
| ElfLoader.Loader.FreeRegions | src/syscall/elf.c:98-105 | every frame of every region goes back and no other |
| ElfLoader.EntryInside | src/syscall/elf.c:255-271 | finds whether the entry lies in an executable loadable segment |
| ElfLoader.ByteReads | src/syscall/elf.c:107-274 | byte k of a segment reads as its file byte, or zero past the file, and can be written and executed exactly as the segment's flags say, if no later segment has its page |
| ElfLoader.EntryRuns | src/syscall/elf.c:164-271 | the entry of an accepted image lies in an executable segment of type 1, and user code may execute there exactly when the last segment with that page is executable |
| ElfLoader.SharedByteIff | src/syscall/elf.c:205-241 | a byte whose page a later segment has reads right exactly when the two agree on it |
| ElfCases.SharedPageLoses | src/syscall/elf.c:164-274 | with five frames left, an image of code and constants in one page is loaded with success and the byte at its entry reads as 0 instead of 7 |
| ElfCases.LoadsShort | src/syscall/elf.c:205-274 | with one to three frames left, a one-page image is loaded into an empty space with success and its entry point cannot be read |
| ElfCases.ShortLoadHappens | src/syscall/elf.c:205-274 | an allocator and an image where that happens |
| Sched.EveryRun | src/sched/sched.c:484-746 | every run of create, schedule, kill, exit, sleep, wake and priority change: the queue is one cycle holding idle and the running task once, the dead are off it, the running task is never about to be reaped, and each task ever created is held or was reaped exactly once |
| Sched.StepInv | src/sched/sched.c:484-746 | each step keeps that invariant |
| Sched.ScheduleInv | src/sched/sched.c:484-535 | schedule keeps it and runs the task it picked |
| Sched.ScheduleStates | src/sched/sched.c:484-535 | the task picked is Running, a Running one it leaves is Ready, every other task keeps its state, every task its priority, and only a dead first task leaves the cycle |
| Sched.SchedulePasses | src/sched/sched.c:484-535 | the same of all tasks at once |
| Sched.StepStates | src/sched/sched.c:484-678 | what every step makes of every task on the cycle: whether it stays, its state and its priority |
| Sched.RunsOn | src/sched/sched.c:484-678 | over any run, whatever the others do, a runnable task that is not killed, does not exit and does not park stays on the cycle and runnable |
| Sched.KillWorks | src/sched/sched.c:596-646 | a kill succeeds exactly for a task on the cycle other than idle, which then is dead and on the dead list; otherwise nothing changes |
| Sched.CreateWorks | src/sched/sched.c:144-192 | a new task has a new pid, the priority asked for, is ready and comes last |
| Sched.ReapedGrows | src/sched/sched.c:682-746 | the record of reaped tasks only grows |
| Sched.ExitLeaves | src/sched/sched.c:573-582 | a task that exits is not picked again and is the one on the dead list |
| Sched.ScanIs | src/sched/sched.c:489-504 | the scan ends on the first of the highest runnable tasks, or on idle when none is |
| Sched.PicksHighest | src/sched/sched.c:484-535 | no runnable task outranks the one picked |
| Sched.Closer | src/sched/sched.c:484-535 | a ready task of the highest runnable priority comes strictly nearer at every schedule that does not choose it |
| Sched.PassedOverCloser | src/sched/sched.c:484-646 | and no creation, kill, exit or sleep moves it further away or makes it other than ready |
| Sched.BoundedWait | src/sched/sched.c:484-646 | so over any run in which nothing outranks or stops it, a task that is ready at the start is passed over fewer times than its distance |
| RunQueue.Scheduler.constructor | src/sched/sched.c:123-142 | idle alone on the cycle |
| RunQueue.Scheduler.CreateTask | src/sched/sched.c:186-192 | walks to the predecessor of the running task and links the new one in there |
| RunQueue.Scheduler.DoSchedule | src/sched/sched.c:484-535 | scan, switch and unlinking over the links equal the specification; the task picked is Running, a Running one left behind Ready, every other state and all priorities as they were, and only a dead first task is gone |
| RunQueue.Scheduler.PickNext | src/sched/sched.c:489-504 | the loop once round the cycle |
| RunQueue.Scheduler.DoExit | src/sched/sched.c:573-582 | exit over the links |
| RunQueue.Scheduler.DoKill | src/sched/sched.c:596-646 | finds the pid from idle, unlinks its task onto the dead list or exits; refuses idle and unknown pids |
| RunQueue.Scheduler.Find | src/sched/sched.c:584-594 | finds a pid exactly when it is on the cycle |
| RunQueue.Scheduler.ReapAll | src/sched/sched.c:682-746 | empties the dead list, each entry once |
| RtosRuns.EveryRun | src/sched/rtos.c:143-225 | with one mutex per task, after every run: mutual exclusion, no owner ranks below a waiter, non-owners are at base priority, owners have no more than their best waiter lends |
| RtosRuns.StepInv | src/sched/rtos.c:184-225 | lock, resumption and unlock keep that invariant, wait queues sorted and first come first served among equals included |
| RtosRuns.GrantsBest | src/sched/rtos.c:203-225 | an unlock grants to the waiter of highest priority, the longest waiting among equals |
| RtosRuns.NoInversion | src/sched/sched.c:484-535 | schedule never picks a task ranked below a blocked waiter while the owner is runnable |
| RtosRuns.OneHop | src/sched/rtos.c:161-201 | with one mutex per task a contended lock raises the owner and nobody else |
| RtosRuns.InsertOrdered | src/sched/rtos.c:143-156 | insertion keeps the queue in granting order |
| RtSystem.EveryRun | src/sched/rtos.c:184-225 | scheduler and mutexes as one machine, over every run of ticks, creation, exit, sleep, wake-up, lock and unlock from start-up: every waiter is blocked and nobody else is, so no wake-up is lost and a task that runs again in its lock call owns the mutex; mutual exclusion; the scheduler sees the priorities the mutexes set; no owner ranks below a waiter |
| RtSystem.StepInv | src/sched/rtos.c:184-225 | each step keeps both invariants and what joins them |
| RtSystem.EventWorks | src/sched/rtos.c:184-225 | what each event does: a lock takes a free mutex or blocks its caller in the queue, an unlock hands over to the head and makes it runnable, a resumed lock holds what it waited for, a sleeper sleeps, one that is woken is ready |
| RtSystem.HandedOver | src/sched/rtos.c:199-201 | a task that runs while still in its lock call has been handed the mutex, which is what `RtosRuns.EveryRun` asks of a resumption |
| RtSystem.NoInversion | src/sched/sched.c:484-535 | in every reachable state where the owner of a mutex can run, schedule picks a task ranked no lower than any waiter of that mutex |
| RtSystem.Rescheduled | src/sched/sched.c:484-535 | schedule unblocks nobody but idle and drops nobody but the dead, so it keeps what joins scheduler and mutexes |
| Rtos.PropagateIff | src/sched/rtos.c:161-176 | propagation restores inheritance exactly when the chain to raise is within the bound; the early exit is sound and a stale note ends the chain |
| Rtos.ContendIff | src/sched/rtos.c:184-201 | a contended lock, nested holders included, restores inheritance exactly when at most eight owners had to be raised |
| Rtos.UnlockIff | src/sched/rtos.c:203-225 | an unlock keeps inheritance exactly when no other mutex of the caller has a waiter above its base and the head outranks the rest |
| Rtos.TowerIff | src/sched/rtos.c:161-201 | n owners in a row, each blocked on the next: a lock from above keeps inheritance exactly when n is at most eight |
| Rtos.TowerBuiltIff | src/sched/rtos.c:161-201 | locks alone build that row from a world where nothing has happened |
| Rtos.NestedUnlockDrops | src/sched/rtos.c:203-225 | two mutexes held, one unlocked: the caller drops below the waiter of the other |
| Rtos.NestedUnlockHappens | src/sched/rtos.c:161-225 | three locks lead there |
| Rtos.InsertMembers | src/sched/rtos.c:143-156 | insertion adds the task and keeps the others |
| RtMutex.Kernel.WqInsert | src/sched/rtos.c:143-156 | the link walk inserts behind everyone who ranks at least as high and changes no other queue |
| RtMutex.Kernel.PiPropagate | src/sched/rtos.c:161-176 | the loop with its depth bound and early exits |
| RtMutex.Kernel.Lock | src/sched/rtos.c:184-201 | takes a free mutex, or queues, notes and propagates |
| RtMutex.Kernel.Resume | src/sched/rtos.c:199-201 | what runs once the mutex has been handed over |
| RtMutex.Kernel.Unlock | src/sched/rtos.c:203-225 | drops to base priority and hands over to the head of the queue |
| Fat32Files.CreateEnds | src/fs/fat32/fat32.c:371-420 | however a create ends: the clusters it took were free, are distinct and linked, and no data sector outside them and the directory changed; it succeeds exactly when there were enough free clusters and a free slot; then the directory gained the entry, and the file reads back exactly when its length did not overflow and the tail behind a failed table read was there before |
| Fat32Files.CreateWorks | src/fs/fat32/fat32.c:371-420 | with room and a readable table a create succeeds: just enough distinct clusters that were free form the chain, the bytes read back, the directory gains one entry, no other data sector changes |
| Fat32Files.RefusedKeeps | src/fs/fat32/fat32.c:371-420 | a create that needs more clusters than are free, or finds no slot, is refused and leaves as many fewer free as it needed, or none |
| Fat32Files.OtherChains | src/fs/fat32/fat32.c:197-297 | every chain there was before is the same chain with the same contents after |
| Fat32Files.NewChain | src/fs/fat32/fat32.c:375-417 | the new chain starts where its entry says and the entry gives the length |
| Fat32Files.FoundIff | src/fs/fat32/fat32.c:94-138 | lookup of a fresh name finds the new entry exactly when the name does not start with 0xE5; otherwise lookup passes it over, and in a clean directory finds nothing |
| Fat32Files.LookupAddedIff | src/fs/fat32/fat32.c:94-138 | an added entry is found exactly when it does not look deleted; one that does is passed over |
| Fat32Files.LookupIs | src/fs/fat32/fat32.c:94-138 | lookup returns the first live entry of the name in front of the end marker, file or directory, or there is none |
| Fat32Files.FreeSlotIff | src/fs/fat32/fat32.c:246-268 | a new entry goes where the first name byte is 0 or 0xE5 for the first time |
| Fat32Files.NeededIff | src/fs/fat32/fat32.c:371-373 | the clusters hold the file, with less than one to spare, exactly when the 32-bit rounding does not overflow |
| Fat32Files.NeededWraps | src/fs/fat32/fat32.c:371-373 | a file one byte short of 4 GiB gets no cluster, whatever the cluster size |
| Fat32Files.FilledIff | src/fs/fat32/fat32.c:271-297 | once the data is written, failed table read or not, the file reads back exactly when the length did not overflow and the unreached clusters held their part before |
| Fat32Files.EntryFields | src/fs/fat32/fat32.c:402-413 | the split cluster number and the size of an entry read back |
| Fat32Files.EntryLayout | src/fs/fat32/fat32.c:402-413 | where they stand in the 32 bytes: name, attribute 0x20, upper half at 20, lower half at 26, size at 28, low bytes first, zeros between |
| Fat32Files.FirstByte | src/fs/fat32/fat32.c:34-58 | the first byte of an 8.3 name is never the end marker, and the deletion mark exactly when the name starts with it |
| Fat32Files.NameBytes | src/fs/fat32/fat32.c:34-58 | the eleven bytes of a name: up to eight characters in front of the first dot, three behind it, small letters as capitals, spaces elsewhere |
| Fat32.EntryPut | src/fs/fat32/fat32.c:197-213 | writing one entry of a sector keeps the others and its own upper four bits |
| Fat32.EntryPlace | src/fs/fat32/fat32.c:21-31 | entry c is the c-th 32-bit word of the table |
| Fat32.FatSet | src/fs/fat32/fat32.c:197-213 | writing an entry changes that entry of the table and no data sector |
| Fat32.ChainUnique | src/fs/fat32/fat32.c:21-31 | following the table gives one chain |
| Fat32.ChainIff | src/fs/fat32/fat32.c:21-31 | a chain, entry by entry: each holds its successor and the last an end mark of at least 0x0FFFFFF8 |
| Fat32.ChainDistinct | src/fs/fat32/fat32.c:21-31 | a chain that ends never comes back to a cluster |
| Fat32.ExtendGrown | src/fs/fat32/fat32.c:216-242 | a round of allocation takes a cluster that was free and links it behind the last |
| Fat32.GrownChain | src/fs/fat32/fat32.c:216-242 | the clusters taken form a chain |
| Fat32.GrownKeeps | src/fs/fat32/fat32.c:216-242 | older chains are untouched and share no cluster with it |
| Fat32.ReadBack | src/fs/fat32/fat32.c:271-446 | what the write loop wrote to distinct sectors the read loop returns |
| Fat32.WrittenAt | src/fs/fat32/fat32.c:271-297 | each sector the write loop reaches holds its 512 bytes, zeros behind the last; sectors past the data stay |
| Fat32.WrittenPart | src/fs/fat32/fat32.c:271-446 | when only the first sectors of a chain are written, the whole reads back exactly when the others hold the rest already |
| FatVolume.Volume.ClusterToSector | src/fs/fat32/fat32.c:17-19 | the first sector of a cluster |
| FatVolume.Volume.FatNext | src/fs/fat32/fat32.c:21-31 | reads the 28 bits of an entry through the sector buffer; a read that fails gives the end mark |
| FatVolume.Volume.FatWrite | src/fs/fat32/fat32.c:197-213 | rewrites one entry in its sector |
| FatVolume.Volume.FatAllocCluster | src/fs/fat32/fat32.c:216-242 | marks the first entry of the scanned table that reads free as last, or returns 0 and changes nothing when none does |
| FatVolume.StrayIff | src/fs/fat32/fat32.c:216-242 | the scan hands out an entry that names no cluster exactly when none is free and an entry behind the last one is unmarked |
| FatVolume.Volume.AllocateChain | src/fs/fat32/fat32.c:375-393 | the allocation loop of create: all the clusters, or every free one and a refusal |
| FatVolume.Volume.ClusterWriteData | src/fs/fat32/fat32.c:271-297 | the nested write loop, also when a table read fails midway |
| FatVolume.Volume.DirLookup | src/fs/fat32/fat32.c:94-138 | the three nested lookup loops |
| FatVolume.Volume.DirAddEntry | src/fs/fat32/fat32.c:246-268 | the entry goes into the first free slot of the directory; without one nothing changes |
| FatVolume.Volume.Create | src/fs/fat32/fat32.c:371-420 | the disk and the answer are those of the specification, with any number of good table reads while the data is written, so it ends as `Fat32Files.CreateEnds` says |
| FatVolume.Volume.Read | src/fs/fat32/fat32.c:422-446 | returns the file's bytes, no more than the buffer takes; nothing for an empty file, whatever its first cluster |
| FatCases.CreateAndRead | src/fs/fat32/fat32.c:94-446 | create, look up and read in turn: a fresh name is found exactly when the create succeeded, and what is read is the file exactly when nothing is missing where the write broke off |
| FatCases.FaultHappens | src/fs/fat32/fat32.c:271-446 | a create on a new volume that reports success, whose file is found and reads back wrong |
| FatCases.WrapHappens | src/fs/fat32/fat32.c:371-420 | a file one byte short of 4 GiB is created with success and without a cluster |
| FatCases.RefusedHappens | src/fs/fat32/fat32.c:371-420 | a create on a new volume that is refused and leaves no cluster free |
| FatCases.StrayHappens | src/fs/fat32/fat32.c:216-242 | a volume on which the scan hands out a cluster that begins where the disk ends |
| FatCases.LostHappens | src/fs/fat32/fat32.c:94-420 | on a new volume a file whose name is the byte 0xE5 is created with success and not found |
| Fat32Files.ReachedIs | src/fs/fat32/fat32.c:271-297 | how far a walk gets when only so many table reads succeed |
| Crc16.Compute | src/lib/uart/framing.c:76-89 | the bit loops compute the register fold |
| Crc16.ResidueIff | src/lib/uart/framing.c:76-89 | two appended bytes bring the register to zero exactly when they are the checksum, high byte first |
| Crc16.BurstDetected | src/lib/uart/framing.c:76-89 | any change confined to two consecutive bytes of data of any length changes the checksum |
| Framing.DecodesIff | src/lib/uart/framing.c:302-341 | decoding gives a frame exactly on its encoding, and for a full payload on its encoding followed by anything |
| Framing.TrailingDecodes | src/lib/uart/framing.c:302-341 | a full payload, one byte more, and it decodes |
| Framing.ParsesAsIff | src/lib/uart/framing.c:326-341 | linear bytes parse as a frame exactly when they are its wire form |
| Framing.WireIs | src/lib/uart/framing.c:93-119 | type, sequence number, length high byte first, payload, and the checksum of all that from 0xFFFF |
| Framing.StartsAlone | src/lib/uart/framing.c:93-119 | an encoding begins with 0xAA and every other 0xAA in it is followed by 0 |
| Framing.DamagedIff | src/lib/uart/framing.c:326-341 | exactly a whole frame with the wrong two bytes at its end is a checksum error |
| Framing.DamagedDecodes | src/lib/uart/framing.c:302-341 | the decoder reports it with the frame it read |
| Framing.UnstuffStuff | src/lib/uart/framing.c:93-119 | unstuffing undoes stuffing |
| Framing.StuffUnstuff | src/lib/uart/framing.c:306-325 | whatever unstuffs came from stuffing |
| Framing.EncodedFits | src/lib/uart/framing.c:93-119 | an encoding is at most 525 bytes |
| Framing.BurstRejected | src/lib/uart/framing.c:302-341 | damage to two consecutive unstuffed bytes is never accepted |
| Framing.WireResidue | src/lib/uart/framing.c:76-119 | the checksum over body and checksum is zero |
| FramingStream.ReceivesAll | src/lib/uart/framing.c:204-267 | on concatenated encodings, repeated receive returns exactly those frames, in order |
| FramingStream.ReceivesOne | src/lib/uart/framing.c:204-267 | one frame, with anything behind it left unread |
| FramingStream.ReceivesDamaged | src/lib/uart/framing.c:204-267 | a frame with a wrong checksum is consumed whole and reported |
| FramingStream.ReceivesTooLong | src/lib/uart/framing.c:218-226 | a length over 256 is refused as soon as the header is read |
| FramingStream.ReceivesNothing | src/lib/uart/framing.c:163-267 | a frame that stops short with nothing behind it times out |
| FramingStream.BeginsIff | src/lib/uart/framing.c:183-202 | a START begins a frame exactly when a type from 1 to 3 follows |
| FramingStream.NextFrameIff | src/lib/uart/framing.c:163-267 | after any proper part of a frame, and with anything behind, the next one is received intact and the rest left unread exactly when the part does not end in START |
| FramingStream.CutBetween | src/lib/uart/framing.c:163-267 | cut after the type byte and between bytes, the next frame is received and nothing behind it touched |
| FramingStream.CutInside | src/lib/uart/framing.c:163-180 | cut inside a stuffed pair, the next frame is not received; one like it comes only from further on |
| FramingStream.LoneStart | src/lib/uart/framing.c:183-202 | a lone START costs the next frame: the receiver times out or reads on into what is behind it |
| FramingLink.EncodeInto | src/lib/uart/framing.c:93-119 | fills the buffer by index with the encoding; refuses an oversized payload and writes nothing |
| FramingLink.DecodeBuffer | src/lib/uart/framing.c:302-341 | the bounded unstuffing loop and the parse |
| FramingLink.Link.ReadLogical | src/lib/uart/framing.c:163-180 | a data byte, a timeout, or the type of a frame that cut in |
| FramingLink.Link.SyncStart | src/lib/uart/framing.c:183-202 | skips to a START followed by a known type |
| FramingLink.Link.Recv | src/lib/uart/framing.c:204-267 | the receive loop with its restarts, and the two counters |
| Signal.HandlerTransparent | src/syscall/signal.c:42-137 | however deep deliveries nest, a delivery, the handler's matched deliveries and returns, and its return restore x0 to x30, PC, PSTATE and SP |
| Signal.RunInv | src/syscall/signal.c:42-137 | in every legal run each frame still on the stack holds the context it saved |
| Signal.ReturnRestores | src/syscall/signal.c:121-137 | a return restores exactly the context its delivery interrupted |
| Signal.RestoredFrames | src/syscall/signal.c:121-137 | a return takes each field from its place in the frame |
| Signal.ReturnableIff | src/syscall/signal.c:121-137 | the check on the frame passes exactly when all 280 bytes lie below the stack top |
| Signal.FrameRoundTrip | src/syscall/signal.h:34-40 | a context survives being written to and read from a frame |
| Signal.FrameInStackIff | src/syscall/signal.c:42-75 | an accepted frame lies in the mapped stack, aligned and below the stack pointer, exactly when the subtraction did not wrap |
| Signal.FrameAtIs | src/syscall/signal.c:42-60 | the frame is at the highest multiple of 16 at least 288 bytes below the stack pointer, in 64-bit arithmetic |
| Signal.AcceptedIff | src/syscall/signal.c:42-60 | the check passes exactly when the frame fits the mapped stack or the subtraction wrapped |
| Signal.SavedIs | src/syscall/signal.c:60-75 | a delivery writes every register, SP, PC and PSTATE to its place in the frame, the trampoline behind them, and nothing else |
| Signal.WrapAccepted | src/syscall/signal.c:42-60 | a stack pointer of zero passes the check |
| SignalMasks.Choose | src/syscall/signal.c:77-119 | the lowest unblocked signal that is not ignored is chosen; it and the ignored ones passed over are cleared; blocked ones stay pending |
| SignalMasks.Lowest | src/syscall/signal.c:77-119 | the bit scan finds the lowest ready signal |
| SignalMasks.ClearIs | src/syscall/signal.c:77-119 | clearing a bit clears that bit |
| SignalTask.UserTask.DeliverOne | src/syscall/signal.c:42-75 | exactly when the frame is accepted: PC is the handler, x0 the signal, x30 the trampoline, the other registers as they were, SP at the frame, the frame holds the interrupted context and no other memory changed; otherwise the task ends and nothing else changes |
| SignalTask.UserTask.CheckAndDeliver | src/syscall/signal.c:77-119 | delivers at most one signal, only on return to user mode, by that choice, with PC, x0, x30, SP and memory as for one delivery |
| SignalTask.UserTask.Sigreturn | src/syscall/signal.c:121-137 | restores each field from the frame at the stack pointer when its 280 bytes lie below the stack top, else ends the task |
| SignalTask.UserTask.Sigaction | src/syscall/signal.c:141-147 | installs a handler for any signal but SIGKILL |
| SignalTask.UserTask.Sigprocmask | src/syscall/signal.c:161-188 | the mask asked for comes into force, SIGKILL never blocked; which arguments are refused; the mask from before the call is handed back; a refused call leaves the mask as it was exactly when it was not refused for a bad old-mask pointer alone or asked for nothing new |
| SignalTask.GrantedIff | src/syscall/signal.c:165-179 | a call changes the mask exactly when, SIGKILL aside, it asks for something that is not so already |
| SignalTask.RefusedBlocks | src/syscall/signal.c:161-188 | a call that fails and has blocked the signal all the same |

## Left out

- Hardware: MMIO, PCI, interrupt controller, timers, caches, TLBs, barriers and assembly. `context_switch` is "current becomes next".
- Interrupts landing inside a list update: every operation is an atomic step.
- BlkRetry.SubmitRetryEnds: the driver's counters and the device's moves are values, not a class, because the device acts between the driver's polls; the queue underneath is the one `SharedQueue` updates in place.
- Blk.Rw: the answers of the requests are a parameter, which `BlkServed.CarryAnswers` ties to the policy; the buffer is not null.
- Blk.TransferExact: the served requests act on one sequence of bytes; caching and flushing are not modelled.
- BlkServed.CarryExact: for requests below 4 GiB and sectors of 64 bits, with header, status and buffer apart; a device that fails a request keeps to the buffer of a read or the sectors of a write and reports it.
- Pmm.Allocator.constructor: asks for a page-aligned start above zero, a kernel that ends behind it and room for the bitmap, which the code assumes without a check.
- Pmm.Allocator.FreePage: for a region of whole pages, as `Pmm.PassesIff` says; the code would take a part page at the end for a frame.
- Pmm.Allocator.FreePages: addresses do not wrap around at 2^64.
- Mmu.Tables.MapUserRange: asks for at most 2^36 pages, the whole of the address space the four indices reach.
- Mmu.Tables.FreeSubtree: recursion on the level stands for the three nested loops.
- Building the kernel's own identity and upper-half tables.
- KernelHeap.KernelHeap.Kmalloc: asks for a heap whose initialisation found its pages; without one, expansion would follow a null tail.
- KernelHeap.KernelHeap.Kfree: what a header read inside a payload says is a parameter, as callers own those bytes.
- HeapRuns.KfreeRefuses: bytes in a payload may pass for a header, but not so that it overlaps a real one.
- ElfLoader.Loader.Load: starts from decoded headers, which `ElfFile.LoadFile` reads from the file.
- ElfFile.LoadFile: for a file more than 1792 bytes short of 2^64.
- Sched: stack growth, address-space identifiers, fork, and the exit of task creation that frees only the root table.
- RtosRuns.EveryRun: for processes that hold one mutex at a time and are not killed while they hold or wait, as the code intends; that a resumed task has been handed its mutex is a condition there and derived in `RtSystem.HandedOver`; `Rtos.ContendIff` and `Rtos.UnlockIff` cover nested holders.
- RtSystem.EveryRun: kills are left out, since killing a waiter or an owner leaves its mutex in disorder; the idle task takes no mutex.
- RtMutex.Kernel.Unlock: by the owner, and an owner that is not itself blocked; the code does not check who unlocks and leaves that to its callers.
- Semaphores, periodic releases and their statistics.
- FatVolume.Volume.Create: asks for enough free clusters or a table whose entries behind the last real cluster are marked; with neither the scan hands out a cluster that has no sectors, as `FatVolume.StrayIff` says. Path splitting, with its cut at twelve characters, and mounting are not modelled.
- FatVolume.Volume.AllocateChain: the same condition.
- FatVolume.Volume.Read: for a chain that ends, unless nothing is to be read; a cyclic table is not a volume the code can make.
- FatCases.CreateAndRead: for a length that does not overflow, as an entry without a cluster sends the reader to cluster 0, and a name that can be found, which `Fat32Files.FoundIff` decides.
- Block I/O errors in FAT32 other than failed table reads while data is written.
- FramingLink.Link.Recv: the deadline is the end of the byte stream.
- Retransmission and duplicate delivery on the serial device.
- Floating-point and vector registers across signals, which the signal frame does not save.
- Alarms, shell, process listing, printing, benchmarks, monitors, network builders and user programs would only add easy members.
