# Rynex kernel: verified models

Rynex is an x86_64 kernel.  This project models its memory management and a few
of its kernel state machines in Dafny and proves what they are for.  Each part
has a simple meaning (an eager copy, a flat map, a set of disjoint blocks, a
FIFO, a stable priority queue, a stack) and an implementation made of mutated
arrays, threaded lists, bit masks and counts; the theorems say that the second
is the first, over whole runs where the code is a state machine.

| files | part of the kernel |
|---|---|
| `CowState`, `CowInvariant`, `CowFault`, `CowFork`, `CowRefused`, `CowRuns`, `CowWitness` | copy-on-write address spaces as values, their invariant and their runs |
| `CowLaws`, `CowProgress`, `CowCounts` | what a fork gives the child and a teardown gives back, when a write fault succeeds, how often pages are counted |
| `CowShare`, `CowLoops`, `CowPager` | the same operations as the kernel's nested loops over page tables |
| `PageWalk` | the four-level walker: map, unmap, resolve (Intel SDM Vol. 3A section 4.5) |
| `BuddyBlocks`, `BuddyOwners`, `BuddySteps`, `BuddyLists`, `BuddyAllocator`, `BuddyRuns` | the buddy allocator and its quarantine ring |
| `Carve`, `BootMemory` | boot-time carving of free memory around reserved intervals, and handing it to the allocator |
| `IpcPorts`, `IpcCaller`, `IpcCalls` | message ports, and synchronous calls over reply slots |
| `RunQueue` | the per-CPU run queues |
| `Signals`, `SignalReturns` | signal frames, delivery and return (POSIX.1-2017 XSH section 2.4), and returns of several tasks through one parked context |
| `Vma` | the pool of mapped ranges and the mmap hole search |
| `PidBitmap` | the lock-free pid bitmap |
| `Pipes` | pipe slots and descriptor tables |
| `NormalizePath`, `NormalizeMoves`, `NormalizeLaws` | in-place path canonicalisation |
| `ElfLoad`, `ElfFile` | loading of PT_LOAD segments, and files as the ELF gABI lays them out (chapters 4 and 5) |
| `Bits`, `Options` | bit masks, optional values |

How the parts are built:

* Code that updates state is a class with the same fields, and its methods are
  proved against specification functions on values; the lemmas about runs speak
  of those functions.  Tables and memory are sequences or maps in fields.
* A run is a datatype of steps.  Interleaved code (reply slots, pids, the parked
  signal context) is a state machine over its atomic steps.
* Answers of other subsystems are inputs: whether the page allocator grants a
  page and which, whether a user buffer is readable, what user code does to
  registers and memory between system calls.
* 64-bit sums wrap where the code lets them (hole search, unmap, the rsp - 24
  convention, page indices); counts saturate at their width.

Where a promise fails, the model keeps the code and the project gives the input
and the exact condition:

* A write fault whose copy is refused has already given up the page's count:
  `CowWitness.RefusedFaultsLeakStore`, `CowRefused.FaultKeepsIff`,
  `CowRuns.GoodIffLossless`.
* The last space to give up a shared user page takes its count from 1 to 0 and does
  not free it, so a page once shared is never given back:
  `CowCounts.SharedPagesLeak`, `CowCounts.TeardownFreesIff`.
* A table page from the quarantine is counted twice, so that freeing it loses it:
  `BuddyAllocator.Buddies.FreeAtOnce`.
* A 2 MiB leaf whose frame is not 2 MiB aligned translates differently after a
  split: `PageWalk.SplitExact`.
* `free` accepts any address in the first page of an outstanding block and lists
  it: `BuddyAllocator.Buddies.AcceptsFirstPages`, `BuddyAllocator.Buddies.Free`,
  `BuddyAllocator.Buddies.FreeInside`.
* A call of task 0, which cannot block, leaves its token with the service, and the
  next call in that slot can get the wrong answer: `IpcCalls.AbandonedCallMisleads`,
  `IpcCalls.AbandonStaleIff`.
* The parked signal context is one cell for all CPUs:
  `SignalReturns.RestoreStolen`, `SignalReturns.RestoreReachesOwnerIff`.  So is the
  stack pointer through which rt_sigreturn finds its frame:
  `SignalReturns.FrameMisread`, `SignalReturns.CallMisleads`.
* Unmapping the middle of a record drops its upper tail, and a wrapped length
  extends a record: `Vma.ClearExact`, `Vma.CutGrowsIff`.  The hole search can
  answer a range whose end wraps: `Vma.Pool.FindHole`.
* A waiting task can be queued again, and can change its priority before it is
  taken out: `RunQueue.TwiceBreaks`, `RunQueue.Scheduler.Unboost`.
* dup2 does not close what it overwrites: `Pipes.DupKeepsExactIff`.
* Segments on one page overwrite each other, and a truncated last page is left
  empty: `ElfLoad.SharedPageLost`, `ElfLoad.FaithfulIff`, `ElfLoad.TruncatedIff`.
* Path canonicalisation copies between overlapping ranges with a copy that asks
  for ranges apart: `NormalizeMoves.ApartIff`, `NormalizeMoves.CanonicalOverlaps`.

## Model

| member | source | states |
|---|---|---|
| CowRuns.LazyForkIsEager | src/paging.rs:1505-1784 | Over every run of forks, write faults that lose no count, stores and teardowns, each live space reads at every virtual page what it would read had every fork copied all user pages at once. |
| CowRuns.RunsAreSafe | src/paging.rs:1094-1784 | In every state of every such run: a page held by n >= 2 live spaces is counted at least n times, a writable user leaf and every table on its path have exactly one holder, and a teardown frees no page another live space holds. |
| CowRuns.GoodIffLossless | src/paging.rs:1094-1784 | Over every run with whatever faults the kernel takes: the sharing invariant holds in all its states if and only if no fault loses a count, and then the lazy forks are the eager ones. |
| CowRuns.StepRefines | src/paging.rs:1505-1784 | Each kernel step keeps the sharing invariant and is one step of the eager-copy reference. |
| CowRuns.InitialIsGood | src/paging.rs:1505-1520 | Spaces as loaded, with no page in two places, satisfy the sharing invariant whatever their counts hold. |
| CowFork.ForkKeeps | src/paging.rs:1505-1635 | A fork keeps the invariant; the child reads what its parent reads and no other space notices. |
| CowFork.CountSurvivesFork | src/paging.rs:120-141 | Sharing once more keeps a count at or above the number of holders, saturation included, because there are at most 64 spaces. |
| CowFork.TeardownKeeps | src/paging.rs:1094-1498 | A teardown keeps the invariant and changes nothing any remaining space reads. |
| CowFork.ReleasedIsOurs | src/paging.rs:1094-1498 | No page the teardown gives back is reached by another live space. |
| CowFault.UnshareKeeps | src/paging.rs:1642-1699 | Copying a shared table on the way down makes it private to the faulting space and changes no read. |
| CowFault.WalkKeeps | src/paging.rs:1642-1699 | The un-sharing walk keeps the invariant, every read and every leaf, and ends at a private table. |
| CowFault.LeafKeeps | src/paging.rs:1701-1784 | The leaf step, copying or flipping writable in place, keeps the invariant and every read, unless the copy is refused. |
| CowFault.RemapKeeps | src/paging.rs:1701-1784 | A whole write fault that is not refused at the leaf keeps the invariant and every read of every space. |
| CowFault.StoreKeeps | src/paging.rs:1701-1784 | After a fault made a leaf writable, a store through it changes that byte of that space only. |
| CowRefused.FaultKeepsIff | src/paging.rs:1765-1769 | A write fault keeps the invariant if and only if it is not one whose copy is refused for a page counted exactly once per holder: the count is given up before the page is asked for. |
| CowRefused.HoldersAreSharers | src/paging.rs:65-141 | The spaces that hold a page anywhere are those that reach it at its one path. |
| CowWitness.RefusedFaultsLeakStore | src/paging.rs:1505-1784 | A run from a loaded space: a fork, a fault of the child and one of the parent that are refused their copy, a third that makes the shared page writable in place, and a store by the parent that changes what the child reads. |
| CowPager.Pager.AllocZeroed | src/memory/buddy.rs:755-782 | The allocator as the pager sees it: refusal, a fresh page, or a quarantined page whose count is raised twice. |
| CowPager.Pager.UnshareEntry | src/paging.rs:1642-1699 | One level of the walk does exactly what the specification of un-sharing says. |
| CowPager.Pager.WalkPte | src/paging.rs:1642-1699 | The three-level walk loop computes the specified walk, refusals included. |
| CowPager.Pager.RemapIn | src/paging.rs:1701-1784 | The fault handler computes the specified remap and its result.  Under the sharing invariant it answers true if and only if the space has a read-only user page there and each page it has to copy on the path is granted an unused page, all of them different; then the leaf is writable, its other bits and all other entries are as they were but for the copied tables, and every space reads the same. |
| CowPager.Pager.Resolve | src/paging.rs:1701-1784 | The walk and the leaf step of the handler, against the specified remap. |
| CowPager.Pager.ShareLeaves | src/paging.rs:1505-1635 | The innermost fork loop makes every user leaf of a table read-only and counts every user page once more. |
| CowPager.Pager.ShareSubtree | src/paging.rs:1505-1635 | Sharing a subtree counts every table and user page in it exactly once more and changes nothing else. |
| CowPager.Pager.Fork | src/paging.rs:1505-1635 | cow_fork_pml4 with its nested loops yields a forked state, exactly when it gets an unused root page, and changes nothing otherwise.  The child has the kernel half of the kernel, in its user half the parent's entries, tables and pages with the same page, user, huge and no-execute bits, and every shared user leaf read-only; every table and user page below is counted once more, a first time as two, and no other. |
| CowPager.Pager.ReleaseLeaves | src/paging.rs:1094-1498 | The innermost teardown loop gives up one count of each user page, frees the uncounted ones, and reports whether there was any. |
| CowPager.Pager.ReleaseSubtree | src/paging.rs:1094-1498 | A subtree the teardown has not met before is released page by page, each once, and only its pages join the visited ones. |
| CowPager.Pager.FreeAddressSpace | src/paging.rs:1094-1498 | free_address_space with its nested loops yields the torn-down state, and gives back what only this space has: its root, its uncounted user pages, and the tables on the way to user pages that nobody else counts; each other page on the way loses one count. |
| CowLaws.ForkGives | src/paging.rs:1505-1635 | Of every fork: the child's root has the kernel's entries from slot 256 up; at every user path it has the parent's entry, read-only at user leaves; and exactly what lies below is counted once more. |
| CowLaws.TeardownGives | src/paging.rs:1094-1498 | Of every teardown: the root and the uncounted user pages of the space are given back, counted ones lose one count and stay, and so for the tables that lead to user pages; nothing else changes. |
| CowProgress.FaultSucceedsIff | src/paging.rs:1701-1784 | A write fault succeeds if and only if there is a read-only user page and the copies on its path are granted unused pages, all different; a success changes the leaf's writable bit and, where pages were copied, where entries point. |
| CowCounts.CountsAreExact | src/paging.rs:65-141 | Over every run from spaces with uncounted pages whose faults lose no count: a user page is counted 0 times or exactly once for each space that has it. |
| CowCounts.SharedPagesLeak | src/paging.rs:1325-1352 | A user page that a fork shared is never given back, in any later state of a run whose faults are granted their copies, also when no space has it any more. |
| CowCounts.TeardownFreesIff | src/paging.rs:1325-1352 | With counts exact, a teardown gives back a user page of its space if and only if the page has no count; the last user of a counted page leaves it allocated to nobody. |
| CowLoops.SharedIsForked | src/paging.rs:1505-1635 | Counting and write-protecting the pages below the root, plus the new root, is the fork that the run theorems speak of. |
| CowLoops.ReleasedIsTornDown | src/paging.rs:1094-1498 | Releasing the pages below the root and the root itself is the teardown that the run theorems speak of. |
| PageWalk.PageTables.MapInto | src/paging.rs:392-465 | map_into is update on the flat virtual-to-physical map: on success the page translates as asked with its flags, every other page as before, even across a split 2 MiB leaf; on failure nothing translates differently.  It succeeds if and only if each table missing on the path, or to be made by a split, is granted an unused page, all of them different, so always where the last table is there; the entries to new tables are present, writable and open to user mode, and no entry to a table off the path changes. |
| PageWalk.PageTables.UnmapInto | src/paging.rs:467-491 | unmap_into is delete on the flat map and returns the page that was mapped; it refuses exactly the pages without a 4 KiB leaf, and no entry to a table changes. |
| PageWalk.PageTables.ResolvePhys | src/paging.rs:493-517 | resolve_phys computes the translation the flat map is made of. |
| PageWalk.PageTables.EnsureTable | src/paging.rs:392-465 | Making or splitting one table of the path changes no translation and keeps the tree a tree; it fails exactly when the table is missing and no unused page is granted for it, and changes no other entry to a table. |
| PageWalk.PageTables.EnsurePath | src/paging.rs:392-465 | The whole path down to the last table changes no translation, also when an allocation is refused half way; it is there afterwards if and only if every missing table is granted an unused page of its own. |
| PageWalk.NothingMissing | src/paging.rs:392-465 | Where all tables of the path are there, no page is asked for. |
| PageWalk.PageTables.FillSplit | src/paging.rs:392-465 | The split loop fills the new table with the 512 entries that replace the 2 MiB leaf. |
| PageWalk.SplitExact | src/paging.rs:392-465 | The split keeps all 512 translations if and only if the frame field of the 2 MiB leaf is 2 MiB aligned. |
| BuddyRuns.HandedOutOnce | src/memory/buddy.rs:681-823 | Over every run, region adds included, a block is handed out aligned, in range, and apart from everything outstanding, free or quarantined. |
| BuddyRuns.RunConserves | src/memory/buddy.rs:287-325 | Over every run, a byte is free, outstanding, quarantined or dropped exactly when it was so at the start or a region add brought it in: none appears otherwise and none vanishes. |
| BuddyRuns.StepConserves | src/memory/buddy.rs:604-823 | No single step but a region add changes which bytes are owned, and an add brings in bytes nobody owned. |
| BuddyRuns.RunSound | src/memory/buddy.rs:604-823 | Every run from a sound allocator ends in one: pieces disjoint, aligned and in range, free lists fully coalesced. |
| BuddyRuns.NothingIsAllowed | src/memory/buddy.rs:507-520 | Runs exist: the allocator as it is set up, owning nothing, begins one. |
| BuddyRuns.FreeingRestoresLists | src/memory/buddy.rs:628-751 | With no region added, whatever was allocated and freed in between, in whatever order: once the same blocks are outstanding, quarantined and dropped, the free lists hold exactly the blocks they started with. |
| BuddyRuns.FreeingRestoresRegions | src/memory/buddy.rs:604-751 | Two runs from one state that added the same bytes and end with the same blocks in hand have the same free lists, whatever else they did and in whatever order. |
| BuddyRuns.FreeBytesRestored | src/memory/buddy.rs:604-751 | With the same blocks in hand as at the start, the free bytes are those of the start and the added ones. |
| BuddyRuns.QuarantineIsFifo | src/memory/buddy.rs:287-325 | Over every run the quarantine is a FIFO of at most its capacity: what was there and what entered is what left and what is there, in order. |
| BuddyBlocks.CanonicalForm | src/memory/buddy.rs:628-674 | Fully coalesced free lists are determined, at every order, by which bytes are free. |
| BuddyBlocks.CoveredIsInside | src/memory/buddy.rs:628-674 | In a fully coalesced tiling an aligned block of free bytes lies inside one free block. |
| BuddyBlocks.BuddyMerge | src/memory/buddy.rs:628-674 | A block and its buddy by address bit make one aligned block of the next order. |
| BuddyOwners.JoinSound | src/memory/buddy.rs:628-674 | Merging with a free buddy keeps all pieces disjoint, aligned, in range and coalesced. |
| BuddyOwners.SplitSound | src/memory/buddy.rs:681-751 | Halving a block in hand keeps all pieces disjoint, aligned, in range and coalesced. |
| BuddyOwners.GiveSound | src/memory/buddy.rs:628-674 | Listing a block whose buddy is not free keeps the lists coalesced. |
| BuddySteps.StepSound | src/memory/buddy.rs:604-823 | Each call of the allocator, as a step on values, keeps it sound; soundness is proved of every step, not assumed of the next state. |
| BuddySteps.MergeSound | src/memory/buddy.rs:628-674 | Coalescing a block upward keeps the allocator sound, lists every block fully merged, and makes exactly its bytes free. |
| BuddySteps.SplitToSound | src/memory/buddy.rs:681-751 | Halving a block down to an order keeps the allocator sound and frees exactly the bytes cut off. |
| BuddySteps.AddAllSound | src/memory/buddy.rs:604-613 | Adding the blocks a region is cut into keeps the allocator sound and makes exactly their bytes free. |
| BuddyLists.UnlinkOk | src/memory/buddy.rs:851-861 | Unlinking a block from its threaded list leaves every list well linked. |
| BuddyLists.PushOk | src/memory/buddy.rs:628-674 | Pushing a block on a list head leaves every list well linked. |
| BuddyAllocator.Buddies.constructor | src/memory/buddy.rs:507-520 | An allocator with no memory yet owns nothing. |
| BuddyAllocator.Buddies.IsOnFreeList | src/memory/buddy.rs:617-626 | The list walk finds an address exactly when it is on the list. |
| BuddyAllocator.Buddies.RemoveFromList | src/memory/buddy.rs:851-861 | The unlinking walk removes exactly the block asked for. |
| BuddyAllocator.Buddies.MergeOnce | src/memory/buddy.rs:628-674 | One merge step joins with the buddy exactly when the buddy is free at the same order. |
| BuddyAllocator.Buddies.MergeUp | src/memory/buddy.rs:628-660 | The merge loop ends at a block whose buddy is not free, having joined what the specification of merging joins; an address that is no block merges with nothing. |
| BuddyAllocator.Buddies.FreeOne | src/memory/buddy.rs:628-674 | free_one coalesces upward as the specification of merging says; an address inside a page becomes the head of its list as it is. |
| BuddyAllocator.Buddies.SplitDown | src/memory/buddy.rs:681-751 | The split loop keeps the block at the wanted order and returns all other bytes of it to the lists. |
| BuddyAllocator.Buddies.Alloc | src/memory/buddy.rs:681-751 | alloc_nolock takes its step: it hands out a fresh block of the order asked for, and refuses exactly when no free block is large enough. |
| BuddyAllocator.Buddies.PushQuarantine | src/memory/buddy.rs:287-304 | The ring takes a page behind the others unless it is full. |
| BuddyAllocator.Buddies.PopQuarantine | src/memory/buddy.rs:306-325 | The ring gives the page that waited longest and raises its count. |
| BuddyAllocator.Buddies.AllocZeroedPage | src/memory/buddy.rs:755-782 | A quarantined page first, else one from the lists; refusal only when both are empty.  The page is counted once more, or twice if it came from the quarantine. |
| BuddyAllocator.Buddies.AcceptsFirstPages | src/memory/buddy.rs:784-823 | free gets past its checks if and only if the address lies in the first page of an outstanding block, aligned to it or not. |
| BuddyAllocator.Buddies.Free | src/memory/buddy.rs:784-823 | A block in hand leaves the outstanding ones.  A table page counted more than once, and only such a page, goes to nobody; any other table page to the end of the ring while there is room; everything else becomes free bytes.  A table page loses one count, any other page none.  Other addresses change no ownership; an address inside the first page of a block in hand gets listed and breaks the bookkeeping. |
| BuddyAllocator.Buddies.FreeInside | src/memory/buddy.rs:784-823 | For every single data page in hand, freeing the address 8 bytes into it puts that address at the head of the page list while the page is still outstanding. |
| BuddyAllocator.Buddies.FreeAtOnce | src/memory/buddy.rs:755-823 | A zeroed page allocated and freed at once: from the quarantine it is lost for good; off the lists, with no count before, it goes to the quarantine. |
| BuddyAllocator.Buddies.Check | src/memory/buddy.rs:784-806 | The checks of free let an address pass exactly when it lies in the first page of a block in hand, and mark the page freed. |
| BuddyAllocator.Buddies.Release | src/memory/buddy.rs:806-823 | What follows the checks gives back a block in hand, or damages the bookkeeping for any other address that passed. |
| BuddyAllocator.Buddies.ReturnTable | src/memory/buddy.rs:784-823 | A table page loses one count; if the count was more than 1 the page goes nowhere, else to the end of the ring, or its bytes become free when the ring is full. |
| BuddyAllocator.Buddies.AddRegion | src/memory/buddy.rs:604-613 | The range is cut into the blocks the greedy rule gives, each the largest aligned one that fits, and the allocator becomes what adding them in turn makes of it. |
| BuddyAllocator.MaxOrderFor | src/memory/buddy.rs:1011-1021 | The largest order that is aligned at the address and fits the size. |
| Carve.CarveRegion | src/memory/mod.rs:215-302 | The ranges passed to add_region are in order, disjoint, whole pages, and exactly the region less the arena, the kernel bss, the module pages and the boot information page. |
| Carve.Collect | src/memory/mod.rs:215-266 | The clipped list covers, within the region, exactly what is reserved. |
| Carve.Sort | src/memory/mod.rs:268-275 | The exchange sort leaves a permutation ordered by start. |
| Carve.Merge | src/memory/mod.rs:277-288 | Merging overlapping and adjacent intervals keeps their union and leaves gaps between them. |
| Carve.Gaps | src/memory/mod.rs:290-302 | The emitted gaps are exactly the region less the merged intervals. |
| BootMemory.AddFreeRegion | src/memory/mod.rs:215-302 | Carving a region and adding the ranges: the free bytes gain exactly the region less what is reserved, and nothing in hand changes. |
| IpcPorts.Ipc.Create | src/ipc.rs:347-379 | A port id is fresh for ever; creation is refused exactly for a bad or taken name or a full table. |
| IpcPorts.Ipc.Post | src/ipc.rs:395-444 | A message is queued exactly when it fits, the port exists and has room, a page is granted and the buffer is readable; which refusal answers what; every refusal leaves all pages as they were, the granted page having been taken and freed on a bad buffer. |
| IpcPorts.Ipc.Take | src/ipc.rs:450-492 | The next message received from a port is the oldest posted and not yet received one, payload, sender and token intact, and its page passes to the receiver; the port is empty exactly when its count is 0, and gone exactly when no live port has the id. |
| IpcPorts.Ipc.Finish | src/ipc.rs:106-109 | A section frees a page of its own: a receiver on success and on a bad buffer, a sender on a bad buffer, a call that finds no slot. |
| IpcPorts.Ipc.Grab | src/ipc.rs:99-104 | A granted page is cleared and belongs to the section that asked for it. |
| IpcPorts.Ipc.CopyIn | src/ipc.rs:410-426 | The granted page is queued with the message, or freed when the buffer cannot be read, and then nothing has changed. |
| IpcPorts.Ipc.Close | src/ipc.rs:653-673 | Closing frees exactly the queued pages and no id is used again. |
| IpcPorts.Ipc.ReplyAlloc | src/ipc.rs:165-182 | A call gets the lowest free reply slot from 1 up, never 0, and is refused exactly when there is no page or no slot, in which case the page it was granted is freed again. |
| IpcPorts.Ipc.ReplyFree | src/ipc.rs:190-199 | A slot in use gives its page back once; anything else is ignored. |
| IpcPorts.Ipc.Reply | src/ipc.rs:323-345 | The first reply to a slot in use fills it, with the length but no bytes from a null buffer; a second one changes nothing; others are refused. |
| IpcPorts.Ipc.FindPort | src/ipc.rs:113-116 | Port lookup finds the live port of that id, if any. |
| IpcPorts.PostAll | src/ipc.rs:218-268 | Posting keeps every page with one holder and every history the received messages followed by the queued ones. |
| IpcPorts.TakeAll | src/ipc.rs:450-492 | Receiving does too, and the message received is the next of the history. |
| IpcPorts.ClosePages | src/ipc.rs:653-673 | Closing keeps every remaining page with one holder. |
| IpcPorts.FreeQueued | src/ipc.rs:653-665 | The closing loop frees exactly the pages of the ring, each once. |
| IpcCaller.Call | src/ipc.rs:218-316 | ipc_call with any sections of other tasks in between: every way out gives the reply slot and its page back, nothing is touched when no slot is had, and an answer is one that was given to its token while it was waiting.  What enters the mailboxes meanwhile is what other tasks post and, behind what was there, at most once the request with the caller, its token, type 0 and the data: once if there is an answer, never if the port was gone, no page was had or the buffer could not be read, each of which was so at that instant. |
| IpcCaller.Others | src/ipc.rs:218-344 | Whatever sections other tasks run, the slot stays the caller's, once answered neither it nor its page changes, and the mailboxes gain only what they post. |
| IpcCaller.PostRequest | src/ipc.rs:229-277 | The posting loop keeps the slot through every outcome, and posts the request exactly once or, for the reason it gives, not at all. |
| IpcCaller.PostOwn | src/ipc.rs:229-262 | One attempt to post: the request is in the mailbox, or nothing is and the status says what was in the way. |
| IpcCaller.AwaitReply | src/ipc.rs:278-304 | The waiting loop ends with an answered slot, or unable to block; the slot is never gone. |
| IpcCaller.CopyOut | src/ipc.rs:305-316 | The answer is copied out of the slot's page as it was given, outside the lock, and the slot is freed. |
| IpcCaller.ToldBytes | src/ipc.rs:305-344 | The caller is told the length of the answer up to a page, and gets as many of its bytes as fit; from a null buffer, zeros. |
| IpcCaller.GiveUp | src/ipc.rs:229-304 | Every way out without an answer frees the slot and its page. |
| IpcCalls.CallsGetOwnAnswers | src/ipc.rs:218-344 | Over every run in which task 0 makes no call, every completed call returned the answer to its own request, however slots were reused. |
| IpcCalls.AnswersArrive | src/ipc.rs:278-344 | No answer is lost: in every run in which task 0 makes no call, a call whose request a service answered, and that has not returned, can return, and with that answer. |
| IpcCalls.PatientCallsGetOwnAnswers | src/ipc.rs:218-344 | The same over every run, task 0 included, in which no wait is abandoned with its request around. |
| IpcCalls.NobodyAbandons | src/task.rs:3499-3504 | Only task 0 cannot block, so with no call by it no wait is ever abandoned. |
| IpcCalls.SlotsAreGivenBack | src/ipc.rs:165-199 | Over every run, token 0 is never issued, a slot belongs to the call it was given to, and the slots in use are exactly those of the calls that have not returned. |
| IpcCalls.FirstAnswerStands | src/ipc.rs:323-333 | Once a slot is answered it keeps that answer, whatever any task does, task 0 included, until its caller takes the answer or frees the slot. |
| IpcCalls.AbandonStaleIff | src/ipc.rs:299-302 | Giving up a wait leaves a stale token behind if and only if the request is still queued or with a service. |
| IpcCalls.AbandonedCallMisleads | src/ipc.rs:299-302 | From every state in which task 0 waits with its request around, some run makes the next call in that slot, of any task, return the answer to the abandoned request. |
| RunQueue.Scheduler.Enqueue | src/task.rs:652-673 | A task that is not waiting arrives behind every waiting one; bitmaps, heads, tails, links and counts stay those of the arrival order.  A task that waits already leaves queues that are those of no arrival order. |
| RunQueue.Scheduler.Dequeue | src/task.rs:675-695 | It serves what a stable priority queue serves: best priority of that CPU, earliest arrival; none exactly when none waits there. |
| RunQueue.Scheduler.Remove | src/task.rs:697-729 | A waiting task is taken out, the rest keep their order; the answer says whether it was waiting. |
| RunQueue.Scheduler.LowestLevel | src/task.rs:675-685 | The lowest set bit is the lowest level with a waiting task. |
| RunQueue.Scheduler.Find | src/task.rs:697-727 | The walk along one level finds a task and its predecessor exactly when it waits there. |
| RunQueue.Scheduler.Migrate | src/task.rs:1176-1184 | Remove, repoint and enqueue move a waiting task to the end of the other CPU's arrivals. |
| RunQueue.Scheduler.Boost | src/task.rs:3570-3581 | Priority inheritance moves a waiting lock owner behind the tasks of the better level and leaves all others in order. |
| RunQueue.Scheduler.Unboost | src/task.rs:3598-3608 | The end of priority inheritance: the queues stay those of an arrival order if and only if the task is not waiting or its priority does not change, because the priority is changed before the task is taken out. |
| RunQueue.HeadIsBest | src/task.rs:675-695 | The head of the lowest non-empty level is the best entry of the arrival order. |
| RunQueue.LevelWithout | src/task.rs:697-729 | Taking one entry out of the arrival order takes one task out of its level and reorders nothing. |
| RunQueue.CutOk | src/task.rs:697-729 | Relinking around a task, at the head, in the middle or at the tail, leaves the queue of the remaining arrivals. |
| RunQueue.PushOk | src/task.rs:652-673 | Linking a task behind the tail, or as the only one, leaves the queue of the extended arrivals. |
| RunQueue.TwiceBreaks | src/task.rs:1236-1286 | Queueing a waiting task again, at the head, in the middle or at the tail of its level, leaves queues that are those of no arrival order. |
| RunQueue.MovedBreaks | src/task.rs:3598-3608 | So does changing the priority of a waiting task, whether or not it is then queued at its new level. |
| Signals.Task.Deliver | src/task.rs:6022-6105 | Of the signals that are pending and not blocked, the lowest that has a handler with a restorer declared by SA_RESTORER enters it, over an aligned frame below the stack that owes the program its context, or the lowest fatal one without a handler kills, whichever is lower; if and only if there is neither, nothing changes. |
| Signals.Task.SigReturn | src/task.rs:6159-6190 | rt_sigreturn parks the registers of the frame below the shared stack word, and takes rax and mask from it; when the word is the task's own, that is the context the innermost handler's program is owed. |
| Signals.Task.Resume | src/task.rs:5999-6020 | A parked context is written over the 14 exit slots. |
| Signals.Task.Return | src/task.rs:6159-6190 | After any well-nested run with frames intact, a return that reads its own stack word gives back exactly the 14 slots, rax and mask of the program that was interrupted. |
| Signals.Task.FirstSignal | src/task.rs:6027-6048 | The scan finds the lowest signal that is pending, not blocked, and either has a returnable handler or kills by default. |
| Signals.FrameRoundTrip | src/task.rs:5954-5979 | Writing a frame puts each of the 14 registers, rax and the mask where the x86-64 ABI has it in a ucontext, the rsp - 24 convention included, r10 too, and r11 and rcx as the syscall instruction left them. |
| Signals.ReadsWhatIsHeld | src/task.rs:6159-6190 | What rt_sigreturn reads and the exit path restores is what the ABI places of the ucontext hold. |
| Signals.JudgedBy | src/task.rs:6027-6048 | The exit path's decision about one signal, in terms of the pending and blocked masks, handler, restorer and SA_RESTORER. |
| Signals.EnterNested | src/task.rs:6066-6089 | A new frame lies wholly below the active ones and leaves what they owe intact. |
| Signals.EnterMasked | src/task.rs:6091-6093 | Blocking the signal and its mask keeps every active signal blocked, now and after each return. |
| Signals.DepthBound | src/task.rs:6091-6093 | While no active handler has changed the mask, no signal is active twice, so at most 31 handlers are active. |
| SignalReturns.RestoreReachesOwnerIff | src/task.rs:5981-6190 | Over runs of several tasks on several CPUs that share one stack word and one parked cell, once all returns are over, and when the frames and saved registers a return could pick up all differ: every task got back the context it was owed if and only if each read its frame while the last system call entered anywhere was its own or had the same stack pointer, and no other task parked or exited between a return and its own exit. |
| SignalReturns.CleanIsRight | src/task.rs:5981-6190 | Under these two conditions, whatever the contexts and also in unfinished runs, every task that left resumed as it should: registers, rax and mask. |
| SignalReturns.QuietIffOwn | src/context_switch.asm:80-82 | With the stacks of different tasks apart, tasks read their own frames if and only if no other task enters a system call between a task's call and its return. |
| SignalReturns.CallMisleads | src/task.rs:6159-6190 | From every state with a task in a call, another task that enters one before the first reads its frame makes it resume as the frame below the other's stack pointer says, with nobody else touching the cell. |
| SignalReturns.FrameMisread | src/task.rs:6159-6190 | A run of two tasks, for any memory, in which the returns do not mix and the first resumes with the registers, rax and mask found below the second's stack pointer. |
| SignalReturns.ExitSteals | src/task.rs:5999-6020 | In every state with a context parked, an exit of another task takes it, and the owner leaves with the slots it had. |
| SignalReturns.RestoreStolen | src/task.rs:5981-6020 | A run of two tasks, for any contexts, that read their own frames, in which the one ends in the other's registers. |
| Vma.Pool.Register | src/task.rs:2848-2871 | A range is registered exactly when some slot is free or the pool not full, in one place of its space's list; no other space's list changes. |
| Vma.Pool.Find | src/task.rs:2874-2885 | Lookup is the record of the first slot of the space that covers the address, and none exactly if no record does. |
| Vma.Pool.FirstOverlapEnd | src/task.rs:2889-2903 | The least end among overlapping records, if any overlaps. |
| Vma.Pool.ClearRange | src/task.rs:2923-2948 | Unmapping leaves nothing of the range covered, and covers elsewhere exactly what was covered, less the upper tail of a record strictly enclosing the range.  Slot by slot: a record within the range is freed, any other keeps its space and flags; no other space's slot changes. |
| Vma.Pool.Clone | src/task.rs:2950-2983 | The child's list is the parent's in the parent's order, as far as the pool has room; no other list changes. |
| Vma.Pool.FindHole | src/task.rs:4079-4107 | The search terminates, and where there is a hole it answers the least one from the base up.  With every record of the space ending below the limit, it answers nothing else if and only if the size does not wrap at the base, and a size that wraps is always granted.  One record in the way at the base that ends so high that the sum wraps makes it answer that record's end. |
| Vma.JumpSkipsNothing | src/task.rs:4083-4089 | Jumping to the end of an overlapping record skips no hole. |
| Vma.TruncatedIff | src/task.rs:2950-2983 | A child that got only part of the records sees what its parent sees if and only if no record left out shows through. |
| Vma.ClearExact | src/task.rs:2923-2948 | Address by address: what unmapping leaves is what was covered, less the range, less the upper tail of a record strictly enclosing it. |
| Vma.CutLive | src/task.rs:2927-2945 | No cut makes a record of a space start at address 0, the mark of a free slot. |
| Vma.CutGrowsIff | src/task.rs:2931-2945 | A cut adds an address if and only if the range is inverted by a wrapped sum and lies around the record's end. |
| Vma.WrappedUnmapGrows | src/task.rs:4192-4193 | A length that wraps to end 0 extends a record instead of cutting it. |
| Vma.ClearOthers | src/task.rs:2923-2948 | Unmapping in one space changes no other space's list. |
| NormalizePath.Normalize | src/vfs.rs:89-172 | The in-place algorithm returns what the stack specification says, of which `NormalizeLaws` says what it means, and refuses exactly when the path does not fit or its stack would pass 64 names; its last pass makes one copy per kept name, from where the name starts to where the shorter path has it. |
| NormalizePath.NormalIsCanonical | src/vfs.rs:85-88 | Every result is an absolute path without empty, "." or ".." segments. |
| NormalizePath.CanonicalIsFixed | src/vfs.rs:174-178 | A canonical path is its own normal form in every directory. |
| NormalizePath.NormalTwice | src/vfs.rs:334-337 | Normalising a result again changes nothing, and results are never longer than the buffer. |
| NormalizeLaws.PieceLaws | src/vfs.rs:130-149 | Whatever path has given names, in whatever directory and with room for more: ".." behind it drops the last name and stays at the root, "." and a trailing slash change nothing, and a further name is added, or refused at 64 names. |
| NormalizeLaws.RootLaws | src/vfs.rs:89-172 | One piece behind the first slash: "/", "/." and "/.." are the root, and a name is the path of that name. |
| NormalizeLaws.WhereItStarts | src/vfs.rs:95-113 | A path that starts with a slash means the same in every directory; any other means what it means behind the working directory. |
| NormalizeLaws.RefusedForGood | src/vfs.rs:145-147 | A path refused for its names is refused with anything behind it. |
| NormalizePath.Fill | src/vfs.rs:89-118 | The first pass builds the absolute path, or refuses exactly when it does not fit. |
| NormalizePath.Mark | src/vfs.rs:120-150 | The marking pass records the segments the fold keeps and where they start, left to right, and refuses exactly when the fold overflows. |
| NormalizePath.Compact | src/vfs.rs:152-172 | The moving pass writes the kept segments from the front; the write cursor stays below every segment still to be read. |
| NormalizePath.CopyDown | src/vfs.rs:160-170 | Copying towards the front, lowest byte first, moves the bytes even when the ranges overlap. |
| NormalizeMoves.ApartIff | src/vfs.rs:160-170 | For every absolute path: the ranges of every copy are apart if and only if each kept name, put behind those before it and a slash, would end at or before its own start. |
| NormalizeMoves.CanonicalOverlaps | src/vfs.rs:160-170 | For every canonical path but the root, each name is copied onto itself. |
| NormalizeMoves.DoubleSlashOverlaps | src/vfs.rs:160-170 | For "//ab" the one copy moves bytes 2 and 3 to 1 and 2. |
| NormalizePath.FoldShrinks | src/vfs.rs:152-172 | The kept segments never need more bytes than the path had. |
| PidBitmap.PidsAreUnique | src/task.rs:585-637 | Over every interleaving of loads, swaps and frees, no two live holders share a pid and pid 0 is never issued. |
| PidBitmap.SwapTakesLeastFree | src/task.rs:587-608 | A successful swap takes the least slot at or above the minimum, or the slot asked for, that nobody holds at that instant. |
| PidBitmap.SwapFailsOnlyIfChanged | src/task.rs:603-606 | A swap fails only if some step changed the word since the thread read it. |
| PidBitmap.RefusalWasRight | src/task.rs:592-601 | A refusal is right as long as nothing changed the word since it was read. |
| PidBitmap.LowestClear | src/task.rs:593-598 | The lowest clear bit at or above the minimum. |
| Pipes.Files.Pipe | src/task.rs:5534-5564 | A new pipe takes a slot neither of whose ends any descriptor of any task names; it is had exactly when some slot is not in use and the task has two unused descriptors.  A failed one leaves every slot and used descriptor as it was. |
| Pipes.Files.Close | src/vfs.rs:467-481 | Closing drops one reference of its end and gives the slot back exactly when both ends are then uncounted; every end stays counted at least as often as it is named, and exact counts stay exact. |
| Pipes.Files.Dup2 | src/task.rs:5570-5588 | dup2 copies the descriptor and adds a reference; exact counts stay exact if and only if it does not overwrite an open pipe end. |
| Pipes.Files.DupFd | src/task.rs:6412-6434 | F_DUPFD_CLOEXEC takes the lowest unused descriptor from the start given, with one more reference; refused exactly when there is none or the source is not open. |
| Pipes.Files.Fork | src/task.rs:4267-4276 | The child's table is the parent's, with every inherited end counted again; exact counts stay exact if and only if the table overwritten had no open pipe end. |
| Pipes.Files.Exit | src/task.rs:1388-1396 | Exit closes every descriptor of its own table and no other; exact counts stay exact, so a slot that nobody names any more is given back. |
| Pipes.Files.AllocInode | src/vfs.rs:56-77 | An ordinary file never gets an inode in the pipe range. |
| Pipes.Files.OpenFd | src/vfs.rs:444-458 | A descriptor for a file names no pipe end. |
| Pipes.DupCounted | src/task.rs:5502-5513 | One more descriptor with one more reference keeps the count at or above the names, saturation at 2^32 - 1 included. |
| Pipes.CloseCounted | src/task.rs:5517-5532 | One descriptor less with one reference less keeps it too, and no named slot is freed. |
| Pipes.ClaimCounted | src/task.rs:5534-5545 | A slot not in use is named by nobody, so claiming it is safe. |
| Pipes.ForkOwes | src/task.rs:4430-4443 | Between the copy of the table and the counting loop, the counts lack exactly the child's references. |
| Pipes.DupKeepsExactIff | src/task.rs:5580-5585 | With every end of a pipe in use counted once per descriptor and every slot in use named: a duplicate keeps it so if and only if the descriptor overwritten is not an open pipe end, which dup2 does not close. |
| Pipes.ForkKeepsExactIff | src/task.rs:4267-4276 | So does a fork if and only if the table it overwrites has no open pipe end. |
| Pipes.CloseExact | src/task.rs:5517-5532 | So does every close: a slot is given back with the last descriptor that names one of its ends. |
| Pipes.PipeExact | src/task.rs:5534-5564 | So does a new pipe. |
| ElfLoad.Loader.LoadSegment | src/elf.rs:424-466 | The page loop maps every page of the rounded range with the segment's flags and prescribed bytes, or stops when pages run out. |
| ElfLoad.Loader.Load | src/elf.rs:225-471 | A file is loaded exactly when its header is accepted and the pages its segments need can be had; then each page is as the last segment that has it prescribes, and other pages are untouched. |
| ElfFile.WrittenSegments | src/elf.rs:9-38 | For every file written as the gABI says, with any program headers and contents: it is accepted, and what the loader takes from it are the PT_LOAD segments in order, each with its own virtual address, offset, file size, memory size and flags. |
| ElfFile.WrittenHeader | src/elf.rs:9-38 | Each program header read back is the one written, field by field. |
| ElfFile.WrittenAccepted | src/elf.rs:225-268 | A written file passes every check, and its table is found where it was put. |
| ElfFile.PermissionsOf | src/elf.rs:196-205 | A loaded page is writable exactly with PF_W and executable exactly with PF_X of the last segment on it. |
| ElfLoad.SpansMemory | src/elf.rs:424-433 | The pages loaded for a segment are those that reach below its end and above its start; so every address of it is on one. |
| ElfLoad.Loader.LoadHeaders | src/elf.rs:405-471 | The loop over the program headers loads the PT_LOAD ones in order and fails exactly when pages run out. |
| ElfLoad.ImageIs | src/elf.rs:405-471 | Loading segments in turn leaves each page as the last segment that has it prescribes. |
| ElfLoad.HeadersFit | src/elf.rs:246-264 | In an accepted file with entries of the standard size or more, every program header lies in the file. |
| ElfLoad.FilledIsPage | src/elf.rs:438-463 | Zeroing a page and copying the file's part gives the prescribed page, first, middle and last pages alike. |
| ElfLoad.FaithfulIff | src/elf.rs:405-471 | A segment inside the file is in memory as the file says, its bytes, zeros in the rest of its pages, its flags, if and only if on each of its pages the last segment that has the page would put the same there. |
| ElfLoad.SegmentFaithful | src/elf.rs:405-471 | So it is in particular when no later segment has a page of it. |
| ElfLoad.SharedPageLost | src/elf.rs:225-471 | A file with an accepted header and two segments on one page: the first byte of the earlier segment reads 0 once the file is loaded. |
| ElfLoad.TruncatedIff | src/elf.rs:452-463 | A segment is loaded as far as the file goes if and only if the file holds all of it or has only zeros for the page of the segment in which it ends; otherwise that page gets nothing. |
| CowPager.Pager.FreePage | src/memory/buddy.rs:784-823 | The free path as the pager sees it: the page is no longer in use or typed, and its contents are gone. |
| CowPager.Pager.ShareTableCount | src/paging.rs:133-141 | A table is counted once more: 2 at the first share, saturating after that. |
| CowPager.Pager.ShareLeafCount | src/paging.rs:120-131 | A user page is counted once more: 2 at the first share, saturating after that. |
| CowPager.Pager.ShareTable | src/paging.rs:1505-1635 | The middle fork loops share everything below one table, once each. |
| CowPager.Pager.SeedRoot | src/paging.rs:1505-1530 | The child root starts with the kernel entries in its first two slots and from slot 256 up, and with nothing in between. |
| CowPager.Pager.ShareRoot | src/paging.rs:1530-1635 | The outer fork loop gives the child the parent's live entries and shares everything below them, once each. |
| CowPager.Pager.ShareRootSlot | src/paging.rs:1530-1635 | One turn of the outer loop: the slot the fork prescribes, and its subtree shared. |
| CowPager.Pager.ReleaseLeaf | src/paging.rs:1094-1498 | One user page: its count is given up, or the uncounted page is freed. |
| CowPager.Pager.DropTable | src/paging.rs:1094-1498 | One table above user pages: a visited one is left alone; of another the count is given up, or it is freed when counted at most once, and it joins the visited ones while there is room for 2048. |
| CowPager.Pager.ReleaseEntry | src/paging.rs:1094-1498 | One entry of a table: everything it leads to is released, once. |
| CowPager.Pager.ReleaseTable | src/paging.rs:1094-1498 | The teardown loops over one table release everything below it, once each, and report whether there was a user page. |
| PageWalk.PageTables.AllocPage | src/paging.rs:519-524 | A page is had exactly when the allocator grants one that exists and nothing uses; it is that page, zeroed. |
| BuddyAllocator.Buddies.PushBlock | src/memory/buddy.rs:628-674 | The block becomes the head of its list and the lists hold one block more. |
| BuddyAllocator.Buddies.TakeHead | src/memory/buddy.rs:681-751 | The head of a list passes into the caller's hand. |
| BuddyAllocator.Buddies.SplitOnce | src/memory/buddy.rs:681-751 | One halving: the lower half stays in hand, the upper half is listed. |
| BuddyAllocator.Buddies.FirstList | src/memory/buddy.rs:681-700 | The first non-empty list from the order up, or the knowledge that no free block is large enough. |
| BuddyAllocator.Buddies.Carve | src/memory/buddy.rs:681-751 | A block off a list cut to the order asked for: the free bytes lose exactly that block. |
| BuddyAllocator.Buddies.MarkHeld | src/memory/buddy.rs:681-751 | Used bit, freed bit and type agree with the block now outstanding. |
| BuddyAllocator.Buddies.MarkZeroed | src/memory/buddy.rs:757-774 | The same for a page taken from quarantine, typed as a table page and counted once more. |
| BuddyAllocator.Buddies.AllocTable | src/memory/buddy.rs:775-782 | With the quarantine empty, a page off the lists typed as a table page and counted once more. |
| BuddyAllocator.Buddies.TypeAsTable | src/memory/buddy.rs:198-212 | Typing an outstanding page as a table page changes no ownership and counts it once more. |
| BuddyAllocator.Buddies.ReturnBlock | src/memory/buddy.rs:784-823 | A block given back becomes free bytes, a table page goes to the ring, to the lists when that is full, or nowhere when it was counted more than once. |
| BuddyAllocator.Buddies.AddBlock | src/memory/buddy.rs:604-613 | One block of memory nobody had becomes free. |
| BuddyAllocator.Buddies.Scribble | src/memory/buddy.rs:628-674 | Whatever the holder of a block writes into it, no list is affected. |
| BuddyOwners.TakeSound | src/memory/buddy.rs:681-751 | Taking a listed block in hand keeps all pieces disjoint, aligned, in range and coalesced. |
| BuddyOwners.ParkSound | src/memory/buddy.rs:287-304 | So does parking a page in the quarantine. |
| BuddyOwners.UnparkSound | src/memory/buddy.rs:306-325 | So does taking the oldest page out of it. |
| BuddyOwners.AdoptSound | src/memory/buddy.rs:604-613 | So does taking up memory nobody had. |
| Carve.Note | src/memory/mod.rs:230-246 | An interval that meets the region is listed clipped; one that does not is left out; the list still covers what it should. |
| Carve.NoteModules | src/memory/mod.rs:249-260 | The module loop lists the page-rounded modules that meet the region. |
| Carve.NoteInfo | src/memory/mod.rs:262-266 | The boot information page is listed when it lies in the region. |
| IpcPorts.Ipc.NameTaken | src/ipc.rs:118-133 | The name scan finds a live port of exactly that name, if any. |
| IpcPorts.Ipc.FreeSlot | src/ipc.rs:357-359 | The lowest unused port slot. |
| IpcPorts.Ipc.Enqueue | src/ipc.rs:258-260 | The page joins the tail of the ring and the message the end of the history. |
| IpcPorts.Ipc.Dequeue | src/ipc.rs:450-492 | The page at the head of the ring holds the oldest message not yet received. |
| RunQueue.Scheduler.Unlink | src/task.rs:706-722 | The relinking assignments, at the head, in the middle or at the tail. |
| RunQueue.Scheduler.Link | src/task.rs:652-673 | The linking assignments, for an empty level or behind its tail, whether the task waits or not. |
| Signals.Task.PushFrame | src/task.rs:6066-6089 | The frame owes the present context, starts with the restorer, and no other byte of memory changes. |
| Signals.Task.PushContext | src/task.rs:6066-6093 | A new innermost frame with its signal and mask blocked. |
| Signals.Task.EnterHandler | src/task.rs:6066-6101 | The exit path enters the handler: its stack at the frame, signal and context pointer as arguments, other registers as they were. |
| Signals.Task.UserRuns | src/task.rs:5990-5998 | User code may change everything but active frames, and every frame still gives back what it owes. |
| Signals.Task.SetMask | src/task.rs:5907-5928 | A mask change keeps every frame; within a handler it gives up the promise that no signal is active twice. |
| Vma.Pool.FindFree | src/task.rs:2851-2853 | The first free slot of the pool. |
| Vma.PutOwn | src/task.rs:2959-2979 | With no record of the space behind a free slot, a new record is the last of its list. |
| Vma.PutOthers | src/task.rs:2848-2871 | Filling a slot takes one place and disturbs no other list. |
| NormalizePath.Append | src/vfs.rs:98-118 | Bytes are added behind what is there, or refused exactly when they do not fit. |
| NormalizePath.SegmentEnd | src/vfs.rs:131-133 | The inner loop stops at the next slash or the end. |
| NormalizePath.MarkOne | src/vfs.rs:130-149 | One segment does to the marks what one step of the fold does to the stack, whose meaning is `NormalizeLaws.PieceLaws`. |
| NormalizePath.Move | src/vfs.rs:160-170 | One segment moves behind a slash at the cursor and the later ones stay readable. |
| NormalizePath.Render | src/vfs.rs:160-170 | One turn of the moving pass adds one name to what is rendered, by the copy the path calls for. |
| Pipes.Files.FreeFd | src/vfs.rs:444-458 | The lowest unused descriptor from a start, if any. |
| Pipes.Files.FreeSlot | src/task.rs:5537-5538 | The lowest pipe slot not in use. |
| Pipes.Files.GiveBack | src/task.rs:5553-5557 | When the write end finds no descriptor, the read end is closed and the slot given back. |
| Pipes.Files.NameEnds | src/task.rs:5546-5564 | Both ends get a descriptor exactly when the task has two unused ones; otherwise the slot is given up. |
| Pipes.Files.NameWriteEnd | src/task.rs:5552-5564 | The write end gets the lowest unused descriptor, or the read end's is closed again. |
| ElfLoad.Loader.MapPage | src/elf.rs:434-463 | One turn of the page loop maps the prescribed page. |

## Left out

- CowRuns.LazyForkIsEager: runs contain only the write faults that do not give up a count they cannot spare; `CowRuns.GoodIffLossless` says over all runs what the others do.
- CowRuns.RunsAreSafe: same runs; `map_into` and munmap are no steps of them, because they do not un-share tables.
- CowCounts.SharedPagesLeak: later runs contain no fault whose copy is refused; such a fault lowers the count without a copy, as `CowRefused.FaultKeepsIff` says.
- BuddyAllocator.Buddies.Free: the caller frees a block it holds with the order it was allocated with; the reserved list, `mark_allocated` and the list audit are not modelled.
- BuddyAllocator.Buddies.AddRegion: the range is page aligned at its start and lies in the managed span.
- Carve.CarveRegion: at most 32 intervals that meet the region (the merged array's size), page-aligned bounds, and arena and bss given in order and on page bounds.
- IpcCaller.Call: a message a service received is read and freed by it in any later section; wakeups are turns of the waiting loops.
- IpcCalls.CallsGetOwnAnswers: a service answers each request it received at most once; task 0, the only one that cannot block, makes no call, and `IpcCalls.AbandonedCallMisleads` shows what follows if it does.
- RunQueue.Scheduler.Enqueue: a task is enqueued with its own priority; the choices of the scheduler that lead to enqueueing, among them those that enqueue the running task while it waits, and locking, are not modelled.
- RunQueue.Scheduler.Boost: only what priority inheritance does to the queues, not the futex word.
- Signals.Task.Deliver: one task; the stack pointer is in range and below the active frame, and user code leaves active frames alone; alternate stacks, the unused frame fields' meaning to user code and rt_sigsuspend are not modelled.
- SignalReturns.RestoreReachesOwnerIff: a system call's entry is one step; deliveries at exit are not steps of these runs.
- Vma.Pool.Register: ranges do not start at address 0, as no caller passes one that does.
- Vma.Pool.FindHole: only the search; demand paging of the range found is not modelled.
- NormalizePath.Normalize: the working directory is an absolute path, as chdir leaves it; the copies are made byte by byte, lowest first, where the source's copy asks for ranges apart.
- PidBitmap.PidsAreUnique: only holders free a pid.
- Pipes.Files.Fork: a fork that fails after copying the table leaves the copy, which the model keeps as named descriptors; pipe contents and blocking are not modelled.
- ElfLoad.Loader.Load: addresses do not wrap and every program header lies in the file (the code checks only that the table does, which is enough for entries of 56 bytes or more); the budget counts the pages of segments, not the table pages `map_into` may ask for, whose refusal fails the load too; the interpreter, the auxiliary values and the stack are not modelled.
- PageWalk.PageTables.MapInto: 4 KiB and 2 MiB leaves only; 1 GiB leaves and the write-protect trap of the page-type array are not modelled.
- Assembly, interrupt entry, TLB flushes, context switch, timers, APIC and SMP bring-up: hardware effects.
- Drivers, file systems behind the VFS, devfs, tty, serial and framebuffer output: device input and output with shallow properties.
- System-call argument decoding, user-pointer checks, stat and ioctl structures, execve stack building: layout rather than logic.
- vma_clear_addr, vma_clear_pml4, ipc_connect and the shared-memory shim: they would only add easy members.
