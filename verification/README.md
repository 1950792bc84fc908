# Deravel OS: a verified model

Deravel OS is a small RISC-V microkernel. This project models its components that hold state and branch a lot but touch
no hardware once pointers are read as addresses, and proves what they promise. `dafny verify dfyconfig.toml` checks all of it.

**Sv39 page table** (`PageEntry.dfy`, `PageTable.dfy`, `PageTableObject.dfy`). A table, as a value, is described by the set
of regions that are mapped in it: `Describes` says entry by entry what a table holding those regions looks like, `Walk` is
the translation of sections 12.3.2 and 12.4.1 of the RISC-V Privileged Architecture, the reference the table is refined
against. The walk of a described table is the flat map of its regions, and the description is unique, so order of operations
leaves no trace. `PageTable` is the object: an array of entries with child objects, changed in place by the recursive methods
of the source, each of which takes the table of one set of regions to the table of another.

**Buddy allocator** (`Powers.dfy`, `Buddy.dfy`, `BuddyChoice.dfy`, `BuddyStats.dfy`, `BuddyAllocator.dfy`). The tree as a value with its
operations and their effect on the set of free bytes, then heap nodes that do the same in place. The cached maximum is a
function of the free bytes, and so are the addresses handed out: `BestFit` says which block is taken without mention of the
tree. The reported free bytes can be wrong after a reservation:
`LateReservationMisleadsStats` is such a run, `StatsFreeIsCount` says by how much the figure is off, and `ReserveHidesIff` that
a reservation keeps it exact if and only if no node that it takes whole has children.

**Process memory** (`ProcessMemory.dfy`, `DemandPaging.dfy`). Heap blocks, translations and the list of allocations in
step, shared memory included; lazily read disk regions that agree with reading them at once. Four things that processes can
do take the kernel down, each with its exact condition: freeing the stack, the inputs page or a segment (`Dealloc`, and
`FreeOfStackAborts` for the stack); an allocation of zero bytes or of a size that cannot be rounded up (`SysAlloc`, and
`EmptyAllocAborts` for a process that has just started); an access outside every region or not allowed by a mapping, because
the kernel then locks the process that it holds already (`HandlePageFault`, and `NullAccessAborts` for the null address); and
mapping a region of which two processes have read the same page (`MapRegion`).

**Messages and scheduler** (`Actors.dfy`, `Ipc.dfy`, `Kernel.dfy`). The processes and a history of what each has sent,
taken, answered and gone on with, as a transition system with an invariant over all processes; then the system calls and the
scheduler, in place on the table of processes, each tied to a step of that system. A process that calls itself is caught
holding its own lock, which is a kernel panic. `IpcCall`, `IpcStream` and `IpcReply` say exactly when they panic, given how
validation of the capability ended, which is `CertificatePages.Validate`.

**Capabilities** (`Capability.dfy`, `Delegation.dfy`, `Endings.dfy`, `Dispatch.dfy`, `Runs.dfy`, `World.dfy`). Addresses
and packing; the meaning of a claim as a delegation chain; certificates over time, with an order that links follow backwards, so that
validation ends; the table of handlers on the user side. Processes map one page of certificates for each of the eight slots,
so a claim on the page of number 8, which `ProcessId` allows, is a fault in the kernel: `Certifier` has no answer there either.
On certificates that a process wrote by hand validation need not end: `SelfForwardNeverEnds` is such a claim, and
`NeverEndsIff` says that it does not exactly when the claim comes back to a place where it has been. `Runs` says what a run
of the whole system is, as a relation between snapshots: which events can happen, what each changes, when the kernel panics
and when the machine is shut down. In every run each message that the server takes, however long it was queued, is given to
the handler that its capability was granted for. `World` puts kernel, certificates and one server together, from boot on:
processes are reserved, started and spawned, run, call each other, grant and forward in any order, and every sequence of
such events is a run of the relation.

**Ring buffer** (`RingBuffer.dfy`). Every atomic load, store and slot access of the two threads is one step, a slot
access has a beginning and an end, and a slot is undefined in between.

**FAT reader** (`Bytes.dfy`, `Sequences.dfy`, `Fat.dfy`, `LongNames.dfy`). The walk along a chain in three nested loops with
an early exit, the layout of the volume, the packed table, and long names written as the specification says and read back.
What is read is stated over the entries of the packed table and the bytes of the drive. Two departures from the Microsoft FAT
Specification come with their exact conditions: the kind of a volume is taken from a wrong count of sectors
(`TypeIsStandardIff`, `MistakenType`), and the list of characters lacks the plus sign, which section 7 allows in long
names: `LongNameComesBackIff` says that a legal name is read back exactly when it has none, `PlusIsNotRead` gives one that is not.

An assertion, `unwrap` or `unreachable!` in the parts of the source that the rows below cite is either an `assert` here, where
it is shown to hold, or a result (`None`, `false`, `Aborted` or one named for its cause) whose exact condition the contract
gives; those whose cause is not modelled are under "Left out". Addresses and counters are unbounded numbers
with the source's bounds written out.

## Model

| member | source | states |
|---|---|---|
| PageEntries.LeafRoundTrip | kernel/src/page/entry.rs:43-93 | A leaf entry made from any page address below 2^56 and any flags with at least one of read, write, execute unpacks to that address and those flags, and leaves the reserved top bits clear |
| PageEntries.IndirectRoundTrip | kernel/src/page/entry.rs:74-93 | An entry for a child table unpacks to that child table and never reads as a leaf; the invalid entry reads as invalid |
| PageEntries.KernelFlagsMakeLeaves | kernel/src/page/entry.rs:43-67 | Every flag set the kernel builds, with or without user access, makes a leaf; user access does not change writability |
| PageEntries.KernelFlagBits | kernel/src/page/entry.rs:37-67 | The flag sets as numbers: read, write and execute are bits 1 to 3 and user access is bit 4, as in section 12.3.1 of the RISC-V Privileged Architecture |
| PageEntries.FlagsOfLeaf | kernel/src/page/entry.rs:78-80 | The low ten bits of a leaf entry are its flags and the valid bit |
| PageEntries.PageOfLeaf | kernel/src/page/entry.rs:78-80 | From bit 10 on a leaf entry is the number of its page |
| PageTables.SplitByWindows | kernel/src/page/table.rs:197-210 | The split of a range at a level: which entry its first byte falls in, and that prefix, middle and suffix lie in one entry, in whole entries and in one entry, in all cases including a range inside one entry |
| PageTables.SplitRequest | kernel/src/page/table.rs:49-61 | The parts that mapping recurses on are pieces of the request with the right physical address, each inside one entry, and nothing is left over |
| PageTables.MisalignedMeansDeeper | kernel/src/page/table.rs:63-76 | The fallback to smaller pages never happens at level 0, so recursion never goes below it |
| PageTableObjects.PageTable.MapImpl | kernel/src/page/table.rs:49-92 | From the table described by a set of live regions, mapping a region (or the part of it under this table) succeeds if and only if it overlaps none of them there, and gives the table described by one more region |
| PageTableObjects.PageTable.MapAligned | kernel/src/page/table.rs:63-81 | The middle part, as whole leaves or as smaller pages when the physical side is misaligned, fills exactly its entries and fails if and only if something is mapped there |
| PageTableObjects.PageTable.MapLeaf | kernel/src/page/table.rs:144-152 | A leaf is written if and only if the entry is free of any region; the assertion is the other case |
| PageTableObjects.PageTable.MapBelow | kernel/src/page/table.rs:160-179 | A child table is created or reused, never found to be a leaf unless regions overlap, and the piece is mapped in it |
| PageTableObjects.PageTable.UnmapImpl | kernel/src/page/table.rs:94-133 | Unmapping a live region gives the table described by the other regions; no assertion and no unreachable arm on the way |
| PageTableObjects.PageTable.UnmapAligned | kernel/src/page/table.rs:108-122 | The middle part of unmapping clears exactly the entries of the region |
| PageTableObjects.PageTable.UnmapLeaf | kernel/src/page/table.rs:154-158 | The entry is the leaf that was mapped, with the expected physical address, and becomes invalid |
| PageTableObjects.PageTable.UnmapBelow | kernel/src/page/table.rs:173-190 | The child table is there, loses the piece, and is dropped exactly when it is left without regions |
| PageTableObjects.PageTable.IsCompletelyUnmapped | kernel/src/page/table.rs:192-194 | The loop over the entries finds no valid one if and only if there is none |
| PageTableObjects.PageTable.NewChild | kernel/src/page/table.rs:160-171 | An entry without a child gets an empty table of its own, and nothing else changes |
| PageTableObjects.PageTable.SetEntry | kernel/src/page/table.rs:187-190 | An entry is overwritten in place, and what other entries reach stays the same |
| PageTableObjects.PageTable.MapChild | kernel/src/page/table.rs:54-60 | A change inside one child reaches no other entry of its parent |
| PageTableObjects.PageTable.UnmapChild | kernel/src/page/table.rs:99-104 | The same for unmapping |
| PageTables.EmptyIff | kernel/src/page/table.rs:181-194 | A table has no valid entry if and only if no live region reaches into it |
| PageTables.WalkOfLive | kernel/src/page/table.rs:49-92 | The hardware walk gives, at every address, the physical address and flags of the live region that holds it, and a fault where none does, for every mix of page sizes |
| PageTables.MapExtendsTranslations | kernel/src/page/table.rs:22-31 | Mapping changes the walk inside the new region to physical start plus offset with the given flags, and nowhere else |
| PageTables.LiveRegionsAreDisjoint | kernel/src/page/table.rs:144-171 | Live regions that a table can hold share no address |
| PageTables.TableIsCanonical | kernel/src/page/table.rs:181-195 | The live regions alone decide the table down to its page sizes and child tables: order of operations does not matter, unmapped regions leave no trace, and no empty child survives |
| PageTables.LeavesArePackable | kernel/src/page/table.rs:144-152 | Every leaf is physically aligned to its size and fits an entry |
| PageTableObjects.PageTable.IsMappedImpl | kernel/src/page/table.rs:135-142 | Says whether a live region holds the address, at any level |
| PageTableObjects.PageTable.constructor | kernel/src/page/table.rs:16-19 | A new table maps nothing |
| PageTableObjects.PageTable.Map | kernel/src/page/table.rs:22-31 | Succeeds if and only if the region overlaps no live region, and then makes it live |
| PageTableObjects.PageTable.Unmap | kernel/src/page/table.rs:34-43 | Removes a live region given by the same address, physical address and size |
| PageTableObjects.PageTable.IsMapped | kernel/src/page/table.rs:45-47 | True if and only if a live region holds the address |
| PageTableObjects.Replay | kernel/src/page/table.rs:22-47 | Any run of maps and unmaps whose live regions stay disjoint fires no assertion and ends in the one table that its surviving regions describe |
| Buddy.NewWorks | kernel/src/heap/buddy.rs:98-129 | A new tree over any number of bytes, a power of two or not, is well formed, has no live block and exactly those bytes free |
| Buddy.AllocWorks | kernel/src/heap/buddy.rs:131-158 | Allocation succeeds if and only if the request is at most the cached maximum; the new block is free, aligned and inside, exactly its bytes leave the free set, and the invariant holds again |
| Buddy.DeallocWorks | kernel/src/heap/buddy.rs:160-175 | Freeing reaches no assertion and no missing child if and only if the address and size are those of a live block; exactly its bytes come back and the invariant holds again |
| Buddy.ReserveWorks | kernel/src/heap/buddy.rs:177-199 | Reserving any free non-empty range with arbitrary ends takes exactly its bytes out of the free set and keeps all live blocks; the assertion on a whole node holds |
| Buddy.MaxIsLargestFreeBlock | kernel/src/heap/buddy.rs:201-209 | The cached maximum of a node is the size of its largest aligned power-of-two block of free bytes, and 0 when there is none |
| Buddy.MaxBoundsFreeBlocks | kernel/src/heap/buddy.rs:201-209 | No aligned power-of-two block of free bytes is larger than the cached maximum |
| Buddy.AllocSucceedsIff | kernel/src/heap/buddy.rs:137-158 | Allocation succeeds if and only if some aligned power-of-two block of free bytes holds the request |
| Buddy.MaxFollowsFreeSet | kernel/src/heap/buddy.rs:201-209 | Trees with the same free bytes have the same cached maximum, whichever children exist |
| Buddy.AllocFollowsFreeSet | kernel/src/heap/buddy.rs:146-155 | Trees with the same free bytes allocate the same address: it does not depend on which children were materialised |
| BuddyChoices.AllocIsBestFit | kernel/src/heap/buddy.rs:131-158 | Which block is taken, over free bytes alone: wherever a node around the block is large enough that a half of it could hold the request, the block is in the half whose largest free block is smaller, if that one is large enough, and in the lower half when they are equal |
| BuddyChoices.BestFitIsUnique | kernel/src/heap/buddy.rs:146-155 | The free bytes leave one address that satisfies this |
| BuddyChoices.LargestOfHalves | kernel/src/heap/buddy.rs:201-209 | What the descent compares, the maxima of the two children, are the sizes of the largest free blocks in the two halves |
| Buddy.BlocksApart | kernel/src/heap/buddy.rs:131-175 | Live blocks are disjoint, with their sizes rounded up to a power of two |
| Buddy.BlockAligned | kernel/src/heap/buddy.rs:140-155 | A live block is aligned, relative to the start of the range, to its request rounded up to a power of two |
| Buddy.BlocksInRange | kernel/src/heap/buddy.rs:42-50 | A live block lies inside the node it was taken from |
| Buddy.BlockNotFree | kernel/src/heap/buddy.rs:131-145 | No byte of a live block is free |
| Buddy.AllocKeepsUsable | kernel/src/heap/buddy.rs:131-158 | Allocation changes which bytes are free but not which bytes are free or allocated |
| Buddy.FreeingAllRestores | kernel/src/heap/buddy.rs:160-209 | Once no block is live, the free set and the cached maximum are what they were before any allocation, in whatever order blocks were freed |
| BuddyStats.StatsAllocIsSum | kernel/src/heap/buddy.rs:211-230 | The allocated figure is the sum of the sizes that live callers asked for |
| BuddyStats.StatsFreeIsCount | kernel/src/heap/buddy.rs:211-230 | The free figure is the number of free bytes plus what reservations of whole branches hid from it |
| BuddyStats.ReserveKeepsFresh | kernel/src/heap/buddy.rs:177-199 | Reservations made before any allocation keep the shape in which nothing is hidden |
| BuddyStats.ReserveHidesIff | kernel/src/heap/buddy.rs:177-199 | A reservation leaves nothing hidden if and only if nothing was and no node that the range covers whole has children |
| BuddyStats.WholeHidesIff | kernel/src/heap/buddy.rs:177-183 | Reserving a whole free node hides nothing if and only if it has no children |
| BuddyStats.FreshHidesNothing | kernel/src/heap/buddy.rs:211-230 | In that shape the free figure is exact |
| BuddyStats.NewIsFresh | kernel/src/heap/buddy.rs:98-129 | A new tree has that shape |
| BuddyStats.AllocHidesNothing | kernel/src/heap/buddy.rs:131-158 | Allocation hides nothing more |
| BuddyStats.DeallocHidesNothing | kernel/src/heap/buddy.rs:160-175 | Freeing hides nothing more |
| BuddyStats.LateReservationMisleadsStats | kernel/src/heap/buddy.rs:177-183 | A concrete run where a reservation after an allocation makes the free figure wrong |
| BuddyAllocators.Node.New | kernel/src/heap/buddy.rs:98-129 | The heap nodes hold the tree of the specification |
| BuddyAllocators.Node.GetChildren | kernel/src/heap/buddy.rs:243-266 | Children are made on first use, each half the size and wholly free |
| BuddyAllocators.Node.Update | kernel/src/heap/buddy.rs:201-209 | The maximum of a node after a change of its children, with coalescing |
| BuddyAllocators.Node.Alloc | kernel/src/heap/buddy.rs:131-158 | In place: same tree as the specification, nothing changed on failure, and the address is the one that best fit over the free bytes gives |
| BuddyAllocators.Node.Dealloc | kernel/src/heap/buddy.rs:160-175 | In place: the tree of the specification, on a live block |
| BuddyAllocators.Node.ReserveRange | kernel/src/heap/buddy.rs:177-199 | In place: the tree of the specification |
| BuddyAllocators.Node.Stats | kernel/src/heap/buddy.rs:211-230 | The figures of the specification |
| BuddyAllocators.BuddyAllocator.constructor | kernel/src/heap/buddy.rs:31-40 | Exactly the bytes of the range are free, also when its size is not a power of two; the root spans the next power of two |
| BuddyAllocators.BuddyAllocator.Alloc | kernel/src/heap/buddy.rs:42-50 | Fails if and only if no aligned free block is large enough, and then nothing has changed; otherwise the block is inside the range (so both assertions hold), aligned, free before and live after, no other byte changes, and of all such blocks it is the one in the smaller sufficient half at every level |
| BuddyAllocators.BuddyAllocator.Dealloc | kernel/src/heap/buddy.rs:52-56 | A live block is given back, exactly its bytes become free |
| BuddyAllocators.BuddyAllocator.ReserveRange | kernel/src/heap/buddy.rs:58-64 | Exactly the bytes of a free range are taken; the free figure is exact afterwards if and only if it was before and no node taken whole has children |
| BuddyAllocators.BuddyAllocator.Stats | kernel/src/heap/buddy.rs:66-68 | Sum of live requests; the free figure is the number of free bytes if and only if no reservation hid any |
| ProcessMemory.Process.constructor | kernel/src/process.rs:196-262 | The whole range of the heap is free; the entries in the list are the segments given, the inputs at 0x1000, readable by the user, and the stack at 0x3000, readable and writable by the user, all mapped |
| ProcessMemory.Process.AllocSetup | kernel/src/process.rs:249-262 | The entries made at creation are mapped one after the other, none over another |
| ProcessMemory.Process.Alloc | kernel/src/process.rs:110-118 | Fails if and only if the heap has no large enough block, and then neither heap nor table has changed; panics if and only if there is one and the backing is empty; otherwise the block is mapped to its backing and remembered |
| ProcessMemory.Process.AllocAt | kernel/src/process.rs:120-130 | Maps and remembers a backing at any address, in the heap or not, where it overlaps nothing |
| ProcessMemory.Process.Dealloc | kernel/src/process.rs:132-147 | Fails if and only if nothing live starts at the address; panics if and only if what starts there was made at creation, which only addresses below the heap are; otherwise heap block, mapping and entry go together |
| ProcessMemory.Process.MapShared | kernel/src/syscall.rs:234-259 | Shared memory, and a stream on `ipc_stream` or on resuming: no result if and only if the heap has no large enough block, and then nothing has changed; otherwise the block is taken for good and the memory mapped at its start, without an entry in the list |
| ProcessMemory.Process.SysAlloc | kernel/src/syscall.rs:203-212 | Panics if and only if rounding up overflows or the size is zero and the heap has a free byte; otherwise the size is rounded up to pages and allocated, or nothing has changed |
| ProcessMemory.AnyByteIsRoom | kernel/src/heap/buddy.rs:137-158 | The heap can hand out a byte if and only if it has a free one |
| ProcessMemory.HeapTranslations | kernel/src/process.rs:109-148 | Inside the heap the hardware walk reaches the backing of the allocation or shared mapping that holds the address, and faults elsewhere |
| ProcessMemory.AllocationsAreDisjoint | kernel/src/process.rs:109-148 | Live allocations and shared mappings share no address |
| ProcessMemory.FreeingEverythingRestores | kernel/src/process.rs:132-147 | With only the entries made at creation left, in whatever order, and nothing shared, the page table is the one the process started with and the free bytes are exactly those of the user heap |
| ProcessMemory.FreeOfStackAborts | kernel/src/process.rs:256-262 | A process that frees the start of its stack takes the kernel down |
| ProcessMemory.EmptyAllocAborts | kernel/src/syscall.rs:203-212 | An allocation of zero bytes by a process that has just started takes the kernel down |
| ProcessMemory.Replay | kernel/src/syscall.rs:203-267 | A run of allocations, frees and mappings of shared memory panics if some free hits an entry made at creation or some size cannot be rounded up, and but for empty allocations only then; up to there heap, table and list stay in step and no page-table or buddy assertion fires |
| DemandPaging.LoadPage | kernel/src/virtio/blk.rs:150-159 | A page is filled with the bytes of the disk at its place, block by block |
| DemandPaging.AddressSpace.MapRegion | kernel/src/virtual_memory.rs:43-56 | Maps every page of the region that has been read already, by whichever process, and records the region; the already-mapped assertion fires if and only if a page was read twice |
| DemandPaging.AddressSpace.MapBacked | kernel/src/virtual_memory.rs:49-54 | The loop over those pages adds exactly their mappings |
| DemandPaging.NextIsClearIff | kernel/src/virtual_memory.rs:49-54 | The next page overlaps no mapping if and only if no earlier one of the region has its index |
| DemandPaging.AddressSpace.HandlePageFault | kernel/src/main.rs:159-176 | At every address, those of the kernel half included: kills exactly on the stack guard; panics exactly elsewhere outside every region or on an address already mapped, where the kernel locks the process a second time; otherwise the page is loaded, once, and the address is mapped to a page of the given frame that the user can read and nothing else |
| DemandPaging.NullAccessAborts | kernel/src/main.rs:163-170 | An access at address zero by a process without lazy regions takes the kernel down |
| DemandPaging.AddressSpace.LoadRegionPage | kernel/src/virtual_memory.rs:63-70 | Maps the page that holds the address and remembers it; the already-mapped assertion does not fire |
| DemandPaging.FaultingPageIsClear | kernel/src/virtual_memory.rs:64-69 | A page with one unmapped address overlaps no mapping and has not been loaded |
| DemandPaging.PagingAgreesWithEagerReading | kernel/src/virtual_memory.rs:43-70 | Whatever faults came before, an address that the hardware walk maps shows the byte that reading the region at once would give |
| Ipc.SentKeepsInv | kernel/src/syscall.rs:57-67 | Queueing a call and waiting keeps the invariant |
| Ipc.TakenKeepsInv | kernel/src/syscall.rs:91-97 | Taking the first message while serving nobody keeps it |
| Ipc.RepliedKeepsInv | kernel/src/syscall.rs:111-151 | Answering the request in service keeps it |
| Ipc.ResumedKeepsInv | kernel/src/process.rs:332-362 | Going on with an answer keeps it |
| Ipc.GoneKeepsInv | kernel/src/process.rs:293-324 | A process that no live server owes an answer may finish or lose its slot |
| Ipc.BornKeepsInv | kernel/src/process.rs:196-224 | A process that starts keeps it |
| Ipc.StepKeepsInv | kernel/src/syscall.rs:30-181 | Every step of every process and of the scheduler keeps the invariant |
| Ipc.RunKeepsInv | kernel/src/syscall.rs:30-181 | Every run keeps the invariant and only adds to the history |
| Ipc.InitialInv | kernel/src/process.rs:106-107 | The empty table of processes satisfies it |
| Ipc.OneRequestEach | kernel/src/syscall.rs:36-104 | At a live server the callers with a request, queued or in service, are exactly the processes waiting for it, each with one request |
| Ipc.WaiterHasRequest | kernel/src/syscall.rs:57-69 | A process waiting for a live server has a request there |
| Ipc.ServedCallerWaits | kernel/src/syscall.rs:106-154 | Whoever a running server serves has an occupied slot, waits, and waits for this server: the unwrap, both kills for waiting for someone else and the unimplemented arm are unreachable |
| Ipc.ServedInOrder | kernel/src/syscall.rs:83-104 | A server takes messages in the order they arrived, has at most one in service, and its i-th answer goes to the sender of the i-th message it took |
| Ipc.CallsGetTheirAnswers | kernel/src/process.rs:326-362 | The k-th time a caller goes on it is with the answer its server gave to its k-th call, of the kind it asked for, and no two calls share an answer |
| Kernels.Kernel.constructor | kernel/src/process.rs:106-107 | No process at start |
| Kernels.Kernel.Exit | kernel/src/syscall.rs:31-34 | The process is `Finished`, nothing else changes |
| Kernels.Kernel.KillManual | kernel/src/process.rs:46-54 | A process that can run is finished by the kernel |
| Kernels.Kernel.IpcCall | kernel/src/syscall.rs:36-81 | All branches: killed on an invalid capability, an empty slot or a result that does not fit; panics if and only if validation does, it names itself, or the handler of a kernel capability does; otherwise the message is queued and the caller waits |
| Kernels.Kernel.SendMessage | kernel/src/syscall.rs:57-69 | The caller waits and the message is last in the queue |
| Kernels.Kernel.IpcStream | kernel/src/syscall.rs:158-201 | What each branch does to the processes: panics also on an empty slot and on a kernel capability without streams; killed on an invalid capability or when its heap has no room; what it does to its memory is `MapShared` |
| Kernels.Kernel.MapShared | kernel/src/syscall.rs:234-259 | Panics if and only if validation does or the capability is one of the kernel that is not memory; killed on an invalid capability, on one that a process granted and when its heap has no room |
| Kernels.Kernel.IpcReceive | kernel/src/syscall.rs:83-104 | Killed when still serving or when the arguments do not fit; otherwise the oldest message or none |
| Kernels.Kernel.IpcReply | kernel/src/syscall.rs:106-156 | The caller in service is there, waits and waits for this server. One that waits for bytes then has exactly the bytes of the reply with its own buffer, and so has the history. One that waits for a stream has the ring and size of the reply if and only if the ring is memory of the kernel in whole pages that holds two cache lines and the declared size; the replies that panic are listed in full. Otherwise, and when nothing is served, the server is killed |
| Kernels.ReplyToCall | kernel/src/syscall.rs:111-124 | The caller in service waits for this server, and one that waits for bytes gets the bytes of the reply, its own buffer and an entry in the history; the server is done with it |
| Kernels.ReplyToStream | kernel/src/syscall.rs:125-151 | When a stream reply is taken and when the kernel panics on it, both exactly, and what the caller then has |
| Kernels.Kernel.CreateProcess | kernel/src/process.rs:196-224 | A reserved process gets its slot, ready to run, with no message and nobody to serve; panics if and only if its number has none |
| Kernels.Kernel.InspectCanProgress | kernel/src/process.rs:304-324 | A process that waits for bytes or a stream from a process that is not there or has finished is `Finished` afterwards, any other is as before; the scan never takes a lock it holds |
| Kernels.Kernel.SettleSlot | kernel/src/process.rs:281-298 | One slot of the scan: it stops exactly at `Runnable`, `ReadyReply` and `ReadyStreamMap`; a slot whose process had finished, or waited for one that is not there or has finished, is empty afterwards |
| Kernels.Kernel.FindRunnable | kernel/src/process.rs:275-302 | Finds the first process after the last that is `Runnable`, `ReadyReply` or `ReadyStreamMap`, none if and only if no slot is, having settled exactly the slots up to it |
| Kernels.SweptSlot | kernel/src/process.rs:281-324 | A slot that the scan has passed is empty if its process had finished or waited for a server that was not there or had finished when the scan came to it, and as it was otherwise |
| Kernels.Kernel.ResumeProcess | kernel/src/process.rs:326-370 | Fails exactly when the answer does not fit the buffer, panics exactly when a stream is due and the heap of the process has no room for it; never meets a process that cannot be switched to; what a stream does to its memory is `MapShared` |
| Kernels.Kernel.Schedule | kernel/src/process.rs:264-273 | Runs the first process after the last that is `Runnable`, `ReadyStreamMap` or `ReadyReply` with an answer that fits, and records the answer; kills on the way only those whose answer does not fit; every other process that can run is left as it was and every process keeps its queue; none if and only if no slot is in one of these states; panics if and only if the one to run is due a stream without room |
| Kernels.SweptKeepsRunner | kernel/src/process.rs:281-298 | The scan changes no process that can run and makes none able to |
| Kernels.SweptKeepsQueue | kernel/src/process.rs:281-298 | The scan changes no queue of a process that is still there |
| Kernels.WaitsForAnother | kernel/src/process.rs:304-309 | A waiter waits for another process, never itself |
| Kernels.PickGetsCloser | kernel/src/process.rs:275-302 | While a process can run, picking another brings the scan strictly closer to it |
| Kernels.RunsWithinOneRound | kernel/src/process.rs:264-302 | A process that can run at every pick is picked within one round of the slots |
| Kernels.ResumedWithinOneRound | kernel/src/process.rs:264-302 | A process that can be resumed whenever the scheduler runs is resumed within one round of the slots |
| Kernels.AnsweredIsResumed | kernel/src/process.rs:264-302 | A caller that has just been answered, with bytes that fit or with a stream, is resumed within one round of the slots |
| Kernels.OthersLeaveReady | kernel/src/syscall.rs:30-181 | Nothing another process does keeps a process from running, or from being resumed, once it can; its state stays the same |
| Capabilities.CapRoundTrip | types/src/capability/raw.rs:17-38 | Certifier and index come back from the address made of them, for the kernel and every process that has a slot |
| Capabilities.CapIsItsParts | types/src/capability/raw.rs:27-38 | Every address on a page that processes map is the address made of its certifier and index; on others no certificate can be read |
| Capabilities.PackingRoundTrip | types/src/capability/certificate.rs:49-96 | Granted and forwarded certificates unpack to what they were made of, and replacing the recipient changes nothing else |
| Capabilities.UnpackIff | types/src/capability/certificate.rs:49-96 | Which pairs of words say what: the payload is zero or a capability address, the low 16 bits name a process, and only a word of all zeros names the kernel; nothing else unpacks |
| Capabilities.ValidatedIffChain | types/src/capability/raw.rs:44-64 | On any graph, cyclic or not: validation gives a root if and only if a delegation chain leads to it, each forwardee the claimer, each next claimer the certifier before, the last granted |
| Capabilities.OutcomeIsUnique | types/src/capability/raw.rs:44-64 | A claim has one outcome, so one root |
| Delegation.OrderedEnds | types/src/capability/raw.rs:44-64 | Where links lead only to slots given away before, validation ends and does not panic |
| Delegation.UnlinkedSlot | kernel-api/src/capability.rs:24-44 | A write to a slot that no certificate names changes no claim but those on the slot itself |
| Delegation.ReaddressingUnnoticed | kernel/src/process/spawner.rs:23-29 | Replacing the kernel as recipient by a new process is not noticed by any other claim |
| Delegation.ReaddressedTo | kernel/src/process/spawner.rs:23-29 | What the recipient could claim with a certificate the new process then claims |
| Delegation.HandOverGives | kernel/src/process/spawner.rs:15-30 | After a hand-over the new process claims with each argument what the kernel could, the sender claims the export, and every other claim is as before |
| Delegation.ForwardGives | kernel-api/src/capability.rs:24-35 | The forwardee has exactly the forwarder's claim, with the same root |
| Delegation.GrantGives | kernel-api/src/capability.rs:11-22 | The grantee validates a granted capability with itself as root, nobody else does |
| Delegation.CertificatePages.constructor | kernel/src/capability.rs:44-47 | Empty pages: nothing given away |
| Delegation.CertificatePages.StoreNew | kernel-api/src/capability.rs:37-44 | The next slot of the page is given away, never one that was before; the panic is exactly a full page |
| Delegation.CertificatePages.GrantUnhandled | kernel-api/src/capability.rs:11-22 | A grant: only its grantee validates it, and every other claim has the outcome it had |
| Delegation.CertificatePages.GrantKernelCapability | kernel/src/capability.rs:75-95 | The same for a capability of the kernel |
| Delegation.CertificatePages.Forward | kernel-api/src/capability.rs:24-35 | A forward of an existing capability: its forwardee has the forwarder's claim, every other claim the outcome it had |
| Delegation.CertificatePages.GrantExport | kernel/src/process/spawner.rs:17-21 | The export of a process that does not run yet is granted |
| Delegation.CertificatePages.Readdress | kernel/src/process/spawner.rs:25-28 | One certificate gets the new recipient and keeps its kind and inner link |
| Delegation.CertificatePages.HandOver | kernel/src/process/spawner.rs:15-30 | The whole hand-off; panics if and only if an argument is not certified by the sender |
| Delegation.CertificatePages.Start | kernel/src/process.rs:151-167 | A process starts without a hand-off, with what it was granted at boot |
| Delegation.CertificatePages.Validate | types/src/capability/raw.rs:44-64 | On any certificates on which the claim has an end, the loop comes to it; in every reachable state it has one, and the panic is exactly an address beyond the eight pages that processes map |
| Delegation.AbortsOffPages | types/src/capability/raw.rs:44-64 | In every reachable state each claim ends, and panics if and only if no process maps the page of its address |
| Endings.UnfinishedIff | types/src/capability/raw.rs:44-64 | Validation has not ended after a number of rounds if and only if the claim is accepted by that many forwards one after the other |
| Endings.NeverEndsIff | types/src/capability/raw.rs:44-64 | On any certificates, written by hand or not: validation never ends if and only if the claim comes back to a capability and claimer it has been at, if and only if it has not ended after one round more than there are certificates |
| Endings.SelfForwardNeverEnds | types/src/capability/raw.rs:44-64 | A certificate that forwards itself to its certifier: validating the claim of the certifier never ends |
| Dispatching.RootIsGrantedSlot | kernel/src/syscall.rs:44-67 | A capability that a process validates and that is therefore sent to its certifier is a slot the certifier has granted |
| Dispatching.OthersKeepCovered | kernel-api/src/dispatch.rs:171-190 | What others do between two steps of a server gives none of its slots away and takes none back |
| Dispatching.Dispatch.constructor | kernel-api/src/dispatch.rs:132-159 | The export is handled from the start |
| Dispatching.Dispatch.FindHandler | kernel-api/src/dispatch.rs:192-204 | For every capability that can be delivered the index is in the table and holds the handler the capability was granted for; that all delivered ones can be is `World.Receive` |
| Dispatching.Dispatch.Grant | kernel-api/src/dispatch.rs:94-130 | A grant to the sender or to the kernel, with its handler waiting to be installed; the slot never had one |
| Dispatching.Dispatch.Forward | kernel-api/src/dispatch.rs:110-112 | A forward needs no handler and disturbs none |
| Dispatching.Dispatch.Install | kernel-api/src/dispatch.rs:205-225 | After a call or an observation the table has an entry for every slot given away and exactly the granted ones are filled, each with its own handler |
| Worlds.ClaimUsable | kernel/src/syscall.rs:44-67 | However validation ends for a process, the system calls know what to do, and a root that leads to a process is a slot this process has granted |
| Worlds.KernelCallsHaveHandlers | kernel/src/syscall.rs:71-78 | A root of the kernel that a process validates has been granted by the kernel, so the handler that is looked up is there |
| Worlds.ForwardSameGranted | kernel-api/src/capability.rs:24-35 | A forward by the server itself changes none of its granted slots |
| Worlds.ExportKeeps | kernel/src/process/spawner.rs:17-21 | Granting the export of a new process gives away no slot of a running server; if the new process is the server, its only granted slot is the export |
| Worlds.RequestDelivers | kernel/src/syscall.rs:44-70 | After a call on a claim every message queued at the server is on a slot that it has granted, the new one too |
| Worlds.ReplyIsNoNews | kernel/src/syscall.rs:106-156 | A reply adds a message to no queue and makes no process |
| Worlds.QueuesKeptIsNoNews | kernel/src/process.rs:264-302 | Nor does scheduling |
| Worlds.World.constructor | kernel/src/capability.rs:44-47 | Before boot nobody runs and nothing is given away |
| Worlds.World.Reserve | kernel/src/process.rs:185-194 | The next process number is reserved; panics if and only if there is none left |
| Worlds.World.ExportTo | kernel/src/main.rs:82-96 | The export of a process that waits to be started is granted to another one; for number 8 nothing changes that a process could read |
| Worlds.World.Start | kernel/src/process.rs:151-167 | A reserved process starts; panics if and only if no slot has its number |
| Worlds.World.HandOver | kernel/src/process/spawner.rs:15-30 | The hand-off keeps what the server has granted; it fails if and only if an argument is not certified by the sender |
| Worlds.World.Spawn | kernel/src/process/spawner.rs:15-35 | A process has another one started, with the argument certificates made out to it; panics if and only if there is no number or slot left or an argument is not its own |
| Worlds.World.Exit | kernel/src/syscall.rs:31-34 | The running process finishes; the server stays as it is |
| Worlds.World.Call | kernel/src/syscall.rs:36-81 | The claim is validated on the certificates as they are, and the message that goes out carries its root |
| Worlds.World.Stream | kernel/src/syscall.rs:158-201 | The same for a request for a stream |
| Worlds.World.Receive | kernel-api/src/dispatch.rs:179-204 | There is a message if and only if the process serves nobody, its queue is not empty and the arguments of the first message fit; that message is then taken, and if the process is the server, the delivery is recorded: its index is in the table of handlers and the handler there is the one its capability was granted for. Without a message, nothing is delivered |
| Worlds.World.Reply | kernel/src/syscall.rs:106-156 | A reply of any process, with the effect that `IpcReply` gives it |
| Worlds.World.Schedule | kernel/src/process.rs:264-302 | Scheduling leaves every queued message deliverable; who runs next, the panic and the shutdown are as the relation of runs says |
| Worlds.World.GrantByOther | kernel-api/src/capability.rs:11-22 | Another process grants a slot of its own; the server does not notice |
| Worlds.World.Forward | kernel-api/src/capability.rs:24-35 | Any process, the server at any time included, forwards a capability that somebody was given; granted slots and handlers stay |
| Worlds.World.KernelGrant | kernel/src/capability.rs:75-95 | The kernel grants a capability of its own; panics if and only if there is no room for its handler |
| Worlds.World.Begin | kernel-api/src/dispatch.rs:132-159 | The server starts to serve with a handler for its export, the only slot it has granted so far |
| Worlds.World.Grant | kernel-api/src/dispatch.rs:94-130 | The server grants a slot in a call or an observation; the new handler is recorded, and none that was there changes |
| Worlds.World.Observe | kernel-api/src/dispatch.rs:213-218 | The server starts to look at what it observes |
| Worlds.World.Install | kernel-api/src/dispatch.rs:205-225 | After a call or an observation no handler waits to be installed |
| Worlds.World.QueuedCallsHaveHandlers | kernel-api/src/dispatch.rs:192-204 | Every call queued at the server, not just the first, is on a slot that it has granted, and has its handler in the table unless the server is about to install it |
| Worlds.World.Step | kernel-api/src/dispatch.rs:171-225 | Every event has exactly the effect that the relation `Follows` gives it, ends in a panic or a shutdown exactly when `Panics` and `ShutsDown` say so, keeps the invariant, only adds to the deliveries and changes no handler that was granted |
| Worlds.World.EnabledIs | kernel-api/src/dispatch.rs:171-225 | The events that can happen are those that the relation of runs allows |
| Worlds.Replay | kernel-api/src/dispatch.rs:171-225 | Every sequence of reservations, starts, spawns, calls, replies, scheduling, grants, forwards, observations and exits, from boot on, is a run of the relation, with the panic or shutdown that it ends in; and at every moment of it the server has run one handler for each message that it has taken, in the order taken, the one that the capability named in the message was granted for, so neither the unhandled panic nor an index outside the table is reached |
| Runs.RunServes | kernel-api/src/dispatch.rs:171-225 | The same, of every run that the relation allows, by induction over its events |
| Runs.EventServes | kernel-api/src/dispatch.rs:171-225 | No event breaks the match of messages taken and handlers run: only receiving adds to either |
| Runs.ReservedStarts | kernel/src/process.rs:196-224 | In a run, starting a reserved process puts it in its slot, ready to run |
| Runs.ServerBegins | kernel-api/src/dispatch.rs:132-159 | In a run, the start of the server has exactly one outcome: it serves, with one handler for its export |
| Runs.GrantIsRecorded | kernel-api/src/dispatch.rs:94-130 | In a run, a grant during a call takes the next slot of the page of the server, at the address of that slot the grantee validates it, and the handler is the one given |
| Runs.CallArrives | kernel/src/syscall.rs:36-69 | In a run, a call whose claim leads to another process leaves the caller waiting for it and the message, with the root of the claim and the arguments, last in its queue |
| Runs.MessageIsHandled | kernel-api/src/dispatch.rs:179-204 | In a run, receiving by a server with a message has exactly one outcome: the first message is taken and its handler runs |
| Runs.ReplyGetsBack | kernel/src/syscall.rs:106-124 | In a run, a reply leaves the caller in service ready with the bytes of the reply and its own buffer, and the server serving nobody |
| Runs.NextRuns | kernel/src/process.rs:264-302 | In a run, scheduling runs the next process that can go on, which then goes on with the answer that it had |
| Runs.CallPanicsIff | kernel/src/syscall.rs:44-81 | A call panics if and only if its one outcome of validation is a panic, leads to the caller itself, or leads to a kernel capability whose handler panics |
| Runs.StreamPanicsIff | kernel/src/syscall.rs:158-201 | The same for requests for a stream, which also panic on an empty slot |
| Runs.OneIsNext | kernel/src/process.rs:275-302 | Only one process can be the next to go on |
| RingBuffers.StepKeepsInv | types/src/ring_buffer.rs:60-80 | Every load, store and slot access of either thread keeps the invariant |
| RingBuffers.EveryRun | types/src/ring_buffer.rs:59-80 | Over every interleaving: the counters stay within one buffer of each other, the threads never share a slot, no half-written slot is read, and what is polled is a prefix of what was pushed |
| RingBuffers.FullAndEmpty | types/src/ring_buffer.rs:61-74 | The panic is exactly a full buffer and the empty result exactly an empty one, at the load of the other counter |
| RingBuffers.SlotsApart | types/src/ring_buffer.rs:64-75 | Positions less than a buffer apart have different slots, across every wrap |
| RingBuffers.RingBuffer.constructor | types/src/ring_buffer.rs:32-40 | An empty buffer |
| RingBuffers.RingBuffer.Push | types/src/ring_buffer.rs:60-67 | Undisturbed, the method is a run of its five steps and appends the value, or fails on a full buffer |
| RingBuffers.RingBuffer.Poll | types/src/ring_buffer.rs:69-80 | Undisturbed, the method is a run of its five steps and gives the oldest unpolled value, or none |
| Fat.Fat12EntriesComeBack | filesystems/fat/src/main.rs:137-150 | Every 12-bit entry of a packed table, at even and odd places, is read back, as in section 4.1 of the Microsoft FAT Specification |
| Fat.Fat16EntriesComeBack | filesystems/fat/src/main.rs:151 | Every 16-bit entry is read back |
| Fat.Fat32EntriesComeBack | filesystems/fat/src/main.rs:152 | Every 32-bit entry is read back |
| Fat.EntryIsRead | filesystems/fat/src/main.rs:137-162 | On any table, cut off anywhere: reading finds exactly the entries whose bytes are all there |
| Fat.EveryTableHasEntries | filesystems/fat/src/main.rs:137-162 | Any bytes are the packing of some entries, so the results over entries cover every table |
| Fat.ListIsChain | filesystems/fat/src/main.rs:118-135 | Over the entries of the packed table alone: the walk follows a list of clusters if and only if each entry, modulo 2^28, is the next of the list, all are in range and the last entry is an end mark of its width |
| Fat.ListIsUnique | filesystems/fat/src/main.rs:118-135 | From a first cluster on, the table lists at most one file |
| Fat.ClusterInVolume | filesystems/fat/src/main.rs:164-216 | Every cluster up to the largest lies in the data region and inside the volume |
| Fat.ClustersBegin | filesystems/fat/src/main.rs:164-195 | The place of every cluster on the drive in terms of the parameter block: reserved sectors, copies of the table and 32 bytes for each root entry come before the first, and each takes its sectors |
| Fat.ClustersApart | filesystems/fat/src/main.rs:164-173 | Different clusters share no byte of the drive |
| Fat.DriveSectorPlace | filesystems/fat/src/main.rs:164-173 | The drive sectors of a cluster's sectors lie one after the other in the cluster |
| Fat.ChainHasNoCycle | filesystems/fat/src/main.rs:118-135 | A chain that reaches an end mark passes no cluster twice |
| Fat.ContentAt | filesystems/fat/src/main.rs:95-116 | Where each cluster of a chain lies in its content |
| Fat.ReadFile | filesystems/fat/src/main.rs:95-116 | For every file that the table lists, ends with exactly the asked number of bytes, each the byte of the clusters in order or zero beyond them; without a size, all of them; after the first sector no other is read once enough bytes are there |
| Fat.TypeIsStandardIff | filesystems/fat/src/bpb.rs:74-102 | The reader adds the sectors of the root directory where section 3.5 of the Microsoft FAT Specification takes them away; the type of a volume is right if and only if neither limit lies in the range between the two counts |
| Fat.MistakenType | filesystems/fat/src/bpb.rs:74-102 | A concrete volume of 4084 clusters, a FAT12 volume by the specification, that is taken for FAT16 |
| LongNames.ComputeChecksum | filesystems/fat/src/directory.rs:103-111 | The loop computes the rotating sum of the specification function |
| LongNames.ChecksumGrows | filesystems/fat/src/directory.rs:103-111 | Bit by bit: the sum starts at zero, and for each byte every bit moves one place down, the lowest to the top, and the byte is added modulo 256 |
| LongNames.ChecksumSeesOneChange | filesystems/fat/src/directory.rs:103-111 | Changing any one byte of a short name changes its checksum |
| LongNames.LongNameComesBackIff | filesystems/fat/src/directory.rs:113-164 | Every legal name of up to 255 units, split into reversed entries with ordinals, checksum, terminator and padding as in section 7 of the Microsoft FAT Specification, is read back unchanged exactly when it has no plus sign, and is refused otherwise |
| LongNames.PlusIsNotRead | filesystems/fat/src/directory.rs:193-200 | A concrete legal name that is refused |
| LongNames.EncodedAssembles | filesystems/fat/src/directory.rs:121-146 | Entries written for a name pass all checks and assemble to the padded name |
| LongNames.ReadNameIsClean | filesystems/fat/src/directory.rs:148-164 | Whatever is on disk, a name that is read has only allowed characters, at most 255 units, no leading space and no trailing space or period |
| LongNames.PostprocessedIff | filesystems/fat/src/directory.rs:148-164 | A name is read if and only if the units are spaces, the name, spaces and periods, and then nothing or a terminator with padding, and the name has only allowed characters, paired surrogates, at most 255 units and nothing left to strip |
| LongNames.CharactersAre | filesystems/fat/src/directory.rs:193-204 | The allowed characters, as characters |
| LongNames.Utf16Iff | filesystems/fat/src/directory.rs:148-164 | The units that pass as text are exactly the UTF-16 encodings of sequences of characters |
| LongNames.FirstEntryCounts | filesystems/fat/src/directory.rs:92-101 | The first entry on disk gives the number of entries |
| LongNames.CopyLongChunk | filesystems/fat/src/directory.rs:136-146 | The thirteen units of an entry in order, nothing else touched |
| LongNames.CopyLong | filesystems/fat/src/directory.rs:121-134 | Succeeds if and only if the ordinals count down to 1, the first marked with 0x40, and all checksums match; the buffer then starts with the parts in name order and is otherwise as before |
| LongNames.PostprocessLongName | filesystems/fat/src/directory.rs:148-164 | The loops compute the specification function, including every assertion |
| LongNames.ReadLongName | filesystems/fat/src/directory.rs:75-83 | A name is read if and only if the ordinals count down, every checksum is that of the short name and the assembled units are written as `PostprocessedIff` says |

## Left out

- Freeing the memory of a dropped child table. Stored entries keep address and flags apart; that the packed word gives them back is `LeafRoundTrip`. `VpnSegment` divides where the source shifts, and the fallback warning is not logged.
- The direct mapping of the kernel, the capability pages and segments that are not writable are the `fixed` mappings of a process, of which only that they lie outside the heap is used. Parsing of programs is not modelled; that the segments lie below the heap and overlap nothing is a precondition of the constructor.
- An empty range given to `reserve_range` is not covered.
- Panics of the kernel's own heap when it is out of memory, except for the pages of `alloc`, which are asked for with a result.
- Lazily mapped regions are in an address space of their own here; that they also take a heap block, without an entry in the list, is `MapShared` for memory that is mapped at once.
- Handlers of kernel capabilities other than the hand-off to a new process: what they answer is a parameter of `IpcCall`.
- Traps of the kernel on user memory that is not mapped, when it copies arguments, results and capability certificates.
- Kernels.Kernel.CreateProcess: that a number is used for one process only is a precondition; `World` reserves the numbers.
- Kernels.Kernel.IpcReply: the bytes of a stream reply are given by what decoding and validation make of them; every such outcome is there, and what is then done with it.
- Kernels.Kernel.IpcStream: the processes of `Kernel` carry no memory, so that whether a stream finds room is a parameter here, in `MapShared` of the kernel and in `ResumeProcess`; it is whether `Process.MapShared` has a result.
- Worlds.World.Spawn: what the system call then copies to the caller is a `Call` with the result; arguments that cannot be decoded are left out.
- Delegation.CertificatePages.Forward: the forwarded capability exists already, as it does in all programs of the repository; certificates that a process writes by hand into its own page, on which `NeverEndsIff` says when validation ends, are outside the runs considered, and so is the export of process number 8, which nobody can read.
- Delegation.CertificatePages.Validate: where the claim has no end the loop of the source has none either, which `Finishes` excludes and `NeverEndsIff` decides.
- Delegation.CertificatePages.HandOver: arguments are made out to the kernel when the call is made.
- One counter of slots per process stands for the static of each program.
- Registering observers: an observation is any sequence of grants and forwards before `Install`.
- Wrap-around of the 64-bit counters of the ring buffer, and memory orderings weaker than interleaving.
- Several readers of one ring buffer, which the source says it does not support.
- `coalesce_long_names`, path traversal and directory matching: the entries of a name are given. The kind of a volume is given to the reader too; what `determine_type` makes of the parameter block is `DetermineType`, without the assertions that `validate_bpb` adds.
- Fat.ReadFile: for files whose list of clusters ends; on one that does not, `read_file` without a size would not end.
- Conversion of a name from UTF-16 units to a string; that the units are well formed is checked as in the source.
- Assembly, traps, `sfence`, interrupts, VirtIO devices, windowing, terminal, shell, networking, logging and code generation.
